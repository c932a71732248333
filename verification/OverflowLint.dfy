/** The lint for integer arithmetic without an overflow annotation. */
module OverflowLint {
  import opened Sequences
  import opened Wrappers
  import opened OverflowTree

  /** One hint. `stmt` names the statement whose line the hint carries. */
  datatype Report = Report(stmt: nat, file: string, line: nat, col: nat)

  /** What the annotations of the program left on each statement: the keys in the two side tables, and
      the overflow mode that the parser wrote into the node. */
  datatype Notes = Notes(resolved: nat -> seq<string>, raw: nat -> seq<string>, mode: nat -> string)

  /** The tables beside the tree: annotations, source files, and the declared types of each function. */
  datatype World = World(notes: Notes, file: nat -> string, types: nat -> Table)

  /** Where the walk stands: the statement that encloses it, and the types in scope. */
  datatype Place = Place(stmt: nat, file: string, line: nat, types: Table)

  const ARITHMETIC := {"+", "-", "*", "/"}

  predicate IsOption(t: string) {
    t != "" && t[0] == '?'
  }

  predicate Annotated(n: Node, notes: Notes)
    requires IsStatement(n)
  {
    || "overflow" in notes.resolved(n.id)
    || "overflow" in notes.raw(n.id)
    || ((n.For? || n.ExpressionStatement? || n.Let? || n.Return? || n.MultiAssign?) && notes.mode(n.id) != "")
  }

  /** The overflow of a let is dealt with when its target is an option, or is the blank name. */
  predicate Exempt(bound: Option<string>, typ: Option<string>, types: Table) {
    || (typ.Some? && IsOption(typ.value))
    || (typ.None? && bound.Some? && bound.value in types && IsOption(types[bound.value]))
    || bound == Some("_")
  }

  /** The nodes whose children the lint does not look at. */
  predicate Skips(n: Node, notes: Notes, types: Table) {
    if n.Dot? then true
    else if n.Function? then notes.mode(n.id) != ""
    else if !IsStatement(n) then false
    else Annotated(n, notes) || n.Unwrap? || (n.Let? && Exempt(n.bound, n.typ, types))
  }

  predicate Prompts(op: string, left: Node, right: Node, types: Table) {
    var l, r := OperandKind(left, types), OperandKind(right, types);
    op in ARITHMETIC && l != NotInteger && r != NotInteger && (op == "/" ==> l == Signed || r == Signed)
  }

  function Own(n: Node, at: Place): seq<Report> {
    if n.Infix? && Prompts(n.op, n.left, n.right, at.types)
    then [Report(at.stmt, at.file, at.line, n.col)] else []
  }

  /** The place of the children of n. */
  function Inside(n: Node, w: World, at: Place): Place {
    if !IsStatement(n) then at
    else Place(n.id, if w.file(n.id) != "" then w.file(n.id) else at.file, n.line,
               if n.Function? then w.types(n.id) else at.types)
  }

  /** The hints below n. */
  function Lint(n: Node, w: World, at: Place): seq<Report>
    decreases Size(n), 0
  {
    KidsAreSmaller(n);
    if Skips(n, w.notes, at.types) then [] else Own(n, at) + LintAll(Kids(n), w, Inside(n, w, at))
  }

  function LintAll(ns: seq<Node>, w: World, at: Place): seq<Report>
    decreases SizeAll(ns), 1
  {
    if ns == [] then [] else Lint(ns[0], w, at) + LintAll(ns[1..], w, at)
  }

  lemma {:induction false} LintOfConcat(a: seq<Node>, b: seq<Node>, w: World, at: Place)
    ensures LintAll(a + b, w, at) == LintAll(a, w, at) + LintAll(b, w, at)
  {
    if a == [] {
      assert a + b == b;
    } else {
      LintOfConcat(a[1..], b, w, at);
      assert (a + b)[1..] == a[1..] + b;
      Associative(Lint(a[0], w, at), LintAll(a[1..], w, at), LintAll(b, w, at));
    }
  }

  lemma NothingBelow(n: Node, w: World, at: Place)
    requires n.Dot? || (Kids(n) == [] && !n.Infix?)
    ensures Lint(n, w, at) == []
  {
  }

  /** The types of a top-level function: what its tree declares, and for the other names what the parser
      recorded before lowering. */
  function Filled(declared: Table, recorded: Table): Table {
    recorded + declared
  }

  function TypesOfTopLevel(n: Node, w: World, recorded: string -> Table): Table
    requires n.Function?
  {
    if n.called != "" then Filled(w.types(n.id), recorded(n.called)) else w.types(n.id)
  }

  /** The hints of one top-level statement. */
  function LintTop(n: Node, w: World, top: Table, recorded: string -> Table): seq<Report> {
    if !n.Function? then Lint(n, w, Place(0, w.file(if IsStatement(n) then n.id else 0), 0, top))
    else if w.notes.mode(n.id) != "" then []
    else LintAll(n.body, w, Place(n.id, w.file(n.id), n.line, TypesOfTopLevel(n, w, recorded)))
  }

  /** The hints of a whole program. */
  function LintProgram(p: seq<Node>, w: World, top: Table, recorded: string -> Table): seq<Report> {
    if p == [] then [] else LintTop(p[0], w, top, recorded) + LintProgram(p[1..], w, top, recorded)
  }

  lemma LintProgramOfHead(n: Node, rest: seq<Node>, w: World, top: Table, recorded: string -> Table)
    ensures LintProgram([n] + rest, w, top, recorded)
        == LintTop(n, w, top, recorded) + LintProgram(rest, w, top, recorded)
  {
    assert ([n] + rest)[1..] == rest;
  }

  lemma {:induction false} LintProgramOfConcat(a: seq<Node>, b: seq<Node>, w: World, top: Table,
                                               recorded: string -> Table)
    ensures LintProgram(a + b, w, top, recorded) == LintProgram(a, w, top, recorded) + LintProgram(b, w, top, recorded)
  {
    if a == [] {
      assert a + b == b;
    } else {
      var rest, of := a[1..], LintProgram(a[1..], w, top, recorded);
      LintProgramOfConcat(rest, b, w, top, recorded);
      HeadAndTail(a);
      Associative([a[0]], rest, b);
      LintProgramOfHead(a[0], rest + b, w, top, recorded);
      Associative(LintTop(a[0], w, top, recorded), of, LintProgram(b, w, top, recorded));
    }
  }
}

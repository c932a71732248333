/** What lets a formatter delete annotations: the lint, which runs on the lowered tree, reports on no
    statement outside the relevant set, which is computed on the unlowered one. */
module OverflowTheorems {
  import opened Wrappers
  import opened OverflowTree
  import opened OverflowLint
  import opened OverflowRelevance

  /** In every function at or below n, the lint's table is below the table of the analysis. */
  ghost predicate Covers(n: Node, lint: nat -> Table, e: Scope)
    decreases Size(n), 0
  {
    KidsAreSmaller(n);
    (n.Function? ==> Below(lint(n.id), e.types(n.id))) && CoversAll(Kids(n), lint, e)
  }

  ghost predicate CoversAll(ns: seq<Node>, lint: nat -> Table, e: Scope)
    decreases SizeAll(ns), 1
  {
    ns == [] || (Covers(ns[0], lint, e) && CoversAll(ns[1..], lint, e))
  }

  /** A hint below ns belongs to a relevant statement, or to the statement that encloses them. */
  ghost predicate Within(reports: seq<Report>, marked: set<nat>, stmt: nat) {
    forall r :: r in reports ==> r.stmt in marked || r.stmt == stmt
  }

  /** A node outside the statements has at most the hint that its own operation gets. */
  lemma OwnIsFlagged(n: Node, e: Scope, at: Place, types: Table, self: string)
    requires !IsMethodCall(n) && Below(at.types, types)
    requires Own(Flat(n), at) != []
    ensures Flagged(n, e, types, self)
  {
    FlatKind(n.left, at.types);
    FlatKind(n.right, at.types);
    KindFalls(n.left, at.types, types);
    KindFalls(n.right, at.types, types);
  }

  /** Below any node, what the lint reports on the lowered tree is flagged on the unlowered one, and the
      statements it reports on are marked. */
  lemma {:induction false} LintIsCovered(n: Node, w: World, e: Scope, at: Place, types: Table, self: string)
    requires Covers(n, w.types, e) && Below(at.types, types)
    ensures Lint(Flat(n), w, at) != [] ==> Has(n, e, types, self)
    ensures Within(Lint(Flat(n), w, at), Marks(n, e, types, self), if IsStatement(n) then n.id else at.stmt)
    decreases Size(n), 0
  {
    KidsAreSmaller(n);
    if IsMethodCall(n) {
      var recv := n.callee.receiver;
      MethodCallParts(n, w.types, e, types, self);
      MethodCallLint(n, w, at);
      LintIsCovered(recv, w, e, at, types, self);
      LintAllIsCovered(n.args, w, e, at, types, self);
    } else if !Skips(Flat(n), w.notes, at.types) {
      var here := Inside(n, w, at);
      LintAllIsCovered(Kids(n), w, e, here, TypesBelow(n, e, types), SelfBelow(n, self));
      LintOfFlat(n, w, at);
      if Own(Flat(n), at) != [] {
        OwnIsFlagged(n, e, at, types, self);
      }
    }
  }

  lemma {:induction false} LintAllIsCovered(ns: seq<Node>, w: World, e: Scope, at: Place, types: Table, self: string)
    requires CoversAll(ns, w.types, e) && Below(at.types, types)
    ensures LintAll(FlatAll(ns), w, at) != [] ==> HasAny(ns, e, types, self)
    ensures Within(LintAll(FlatAll(ns), w, at), MarksAll(ns, e, types, self), at.stmt)
    decreases SizeAll(ns), 1
  {
    if ns != [] {
      LintIsCovered(ns[0], w, e, at, types, self);
      LintAllIsCovered(ns[1..], w, e, at, types, self);
      StatementIsMarked(ns[0], w, e, at, types, self);
    }
  }

  lemma LintOfFlat(n: Node, w: World, at: Place)
    requires !IsMethodCall(n) && !Skips(Flat(n), w.notes, at.types)
    ensures Lint(Flat(n), w, at) == Own(Flat(n), at) + LintAll(FlatAll(Kids(n)), w, Inside(n, w, at))
  {
    FlatKids(n);
    FlatPlace(n, w, at);
  }

  lemma FlatPlace(n: Node, w: World, at: Place)
    ensures Inside(Flat(n), w, at) == Inside(n, w, at)
  {
  }

  lemma StatementIsMarked(n: Node, w: World, e: Scope, at: Place, types: Table, self: string)
    requires Lint(Flat(n), w, at) != [] ==> Has(n, e, types, self)
    ensures Lint(Flat(n), w, at) != [] && IsStatement(n) ==> n.id in Marks(n, e, types, self)
  {
  }

  /** The receiver of a method call hangs below its callee. */
  lemma MethodCallParts(n: Node, lint: nat -> Table, e: Scope, types: Table, self: string)
    requires IsMethodCall(n)
    ensures Size(n.callee.receiver) < Size(n) && SizeAll(n.args) < Size(n)
    ensures Covers(n, lint, e) ==> Covers(n.callee.receiver, lint, e) && CoversAll(n.args, lint, e)
    ensures Has(n, e, types, self) == (Has(n.callee.receiver, e, types, self) || HasAny(n.args, e, types, self))
    ensures Marks(n, e, types, self) == Marks(n.callee.receiver, e, types, self) + MarksAll(n.args, e, types, self)
  {
    CalleeParts(n.callee, lint, e, types, self);
    KidsAreSmaller(n);
    KidsAreSmaller(n.callee);
    SizeOfHead(n.callee, n.args);
    CoversOfHead(n.callee, n.args, lint, e);
    MarksOfHead(n.callee, n.args, e, types, self);
    assert Kids(n) == [n.callee] + n.args;
  }

  lemma CalleeParts(dot: Node, lint: nat -> Table, e: Scope, types: Table, self: string)
    requires dot.Dot?
    ensures Covers(dot, lint, e) == Covers(dot.receiver, lint, e)
    ensures Has(dot, e, types, self) == Has(dot.receiver, e, types, self)
    ensures Marks(dot, e, types, self) == Marks(dot.receiver, e, types, self)
  {
    CoversOfHead(dot.receiver, [], lint, e);
    MarksOfHead(dot.receiver, [], e, types, self);
    assert Kids(dot) == [dot.receiver] + [];
  }

  lemma CoversOfHead(n: Node, rest: seq<Node>, lint: nat -> Table, e: Scope)
    ensures CoversAll([n] + rest, lint, e) == (Covers(n, lint, e) && CoversAll(rest, lint, e))
  {
    assert ([n] + rest)[1..] == rest;
  }

  /** Once lowered, the receiver is an argument. */
  lemma MethodCallLint(n: Node, w: World, at: Place)
    requires IsMethodCall(n)
    ensures Lint(Flat(n), w, at) == Lint(Flat(n.callee.receiver), w, at) + LintAll(FlatAll(n.args), w, at)
  {
    var name := Identifier(n.target.value, false);
    var rest := [Flat(n.callee.receiver)] + FlatAll(n.args);
    assert ([name] + rest)[1..] == rest;
    assert rest[1..] == FlatAll(n.args);
    assert Lint(name, w, at) == [];
    assert LintAll([name] + rest, w, at) == LintAll(rest, w, at);
    assert Kids(Flat(n)) == [name] + rest;
  }

  // ---------------------------------------------------------------------------------------
  // Annotations outside the set

  ghost predicate Agree(a: Notes, b: Notes, ids: set<nat>) {
    forall id :: id in ids ==> a.resolved(id) == b.resolved(id) && a.raw(id) == b.raw(id) && a.mode(id) == b.mode(id)
  }

  /** Whatever happens to the annotations of unmarked statements, the lint reports the same below n. */
  lemma {:induction false} SameHints(n: Node, w: World, v: World, e: Scope, at: Place, types: Table, self: string,
                                     ids: set<nat>)
    requires v == w.(notes := v.notes) && Agree(w.notes, v.notes, ids) && Marks(n, e, types, self) <= ids
    requires Covers(n, w.types, e) && Below(at.types, types)
    ensures Lint(Flat(n), w, at) == Lint(Flat(n), v, at)
    decreases Size(n), 0
  {
    if !Has(n, e, types, self) {
      LintIsCovered(n, w, e, at, types, self);
      LintIsCovered(n, v, e, at, types, self);
    } else if IsMethodCall(n) {
      MethodCallParts(n, w.types, e, types, self);
      SameHints(n.callee.receiver, w, v, e, at, types, self, ids);
      SameHintsAll(n.args, w, v, e, at, types, self, ids);
      SameMethodCall(n, w, v, at);
    } else {
      SameSkips(n, w.notes, v.notes, e, at.types, types, self, ids);
      if !Skips(Flat(n), w.notes, at.types) {
        KidsAreSmaller(n);
        SameHintsAll(Kids(n), w, v, e, Inside(n, w, at), TypesBelow(n, e, types), SelfBelow(n, self), ids);
        SameNode(n, w, v, at);
      }
    }
  }

  lemma SameMethodCall(n: Node, w: World, v: World, at: Place)
    requires IsMethodCall(n)
    requires Lint(Flat(n.callee.receiver), w, at) == Lint(Flat(n.callee.receiver), v, at)
    requires LintAll(FlatAll(n.args), w, at) == LintAll(FlatAll(n.args), v, at)
    ensures Lint(Flat(n), w, at) == Lint(Flat(n), v, at)
  {
    MethodCallLint(n, w, at);
    MethodCallLint(n, v, at);
  }

  lemma SameNode(n: Node, w: World, v: World, at: Place)
    requires !IsMethodCall(n) && !Skips(Flat(n), w.notes, at.types) && !Skips(Flat(n), v.notes, at.types)
    requires v == w.(notes := v.notes)
    requires LintAll(FlatAll(Kids(n)), w, Inside(n, w, at)) == LintAll(FlatAll(Kids(n)), v, Inside(n, w, at))
    ensures Lint(Flat(n), w, at) == Lint(Flat(n), v, at)
  {
    LintOfFlat(n, w, at);
    LintOfFlat(n, v, at);
    assert Inside(n, v, at) == Inside(n, w, at);
  }

  /** The annotations of a marked statement are its own. */
  lemma SameSkips(n: Node, a: Notes, b: Notes, e: Scope, lint: Table, types: Table, self: string, ids: set<nat>)
    requires Has(n, e, types, self) && Marks(n, e, types, self) <= ids && Agree(a, b, ids)
    ensures Skips(Flat(n), a, lint) == Skips(Flat(n), b, lint)
    ensures MarksAll(Kids(n), e, TypesBelow(n, e, types), SelfBelow(n, self)) <= ids
  {
    FlatKeepsId(n);
    if IsStatement(n) {
      assert n.id in ids;
    }
    SkipsByNotes(Flat(n), a, b, lint);
  }

  lemma FlatKeepsId(n: Node)
    ensures IsStatement(Flat(n)) == IsStatement(n)
    ensures IsStatement(n) ==> Flat(n).id == n.id
  {
  }

  lemma SkipsByNotes(n: Node, a: Notes, b: Notes, lint: Table)
    requires IsStatement(n) ==>
               a.resolved(n.id) == b.resolved(n.id) && a.raw(n.id) == b.raw(n.id) && a.mode(n.id) == b.mode(n.id)
    ensures Skips(n, a, lint) == Skips(n, b, lint)
  {
  }

  lemma {:induction false} SameHintsAll(ns: seq<Node>, w: World, v: World, e: Scope, at: Place, types: Table,
                                        self: string, ids: set<nat>)
    requires v == w.(notes := v.notes) && Agree(w.notes, v.notes, ids) && MarksAll(ns, e, types, self) <= ids
    requires CoversAll(ns, w.types, e) && Below(at.types, types)
    ensures LintAll(FlatAll(ns), w, at) == LintAll(FlatAll(ns), v, at)
    decreases SizeAll(ns), 1
  {
    if ns != [] {
      SameHints(ns[0], w, v, e, at, types, self, ids);
      SameHintsAll(ns[1..], w, v, e, at, types, self, ids);
    }
  }

  // ---------------------------------------------------------------------------------------
  // Whole programs

  /** What the lint and the analysis see of one program. `lintTop` and `top` type its top-level code, and
      `recorded` is what the parser kept of each function's variables. */
  datatype Tables = Tables(w: World, lintTop: Table, recorded: string -> Table, e: Scope, top: Table)

  ghost predicate CoversTop(n: Node, t: Tables) {
    if n.Function?
    then Below(TypesOfTopLevel(n, t.w, t.recorded), t.e.types(n.id)) && CoversAll(n.body, t.w.types, t.e)
    else Covers(n, t.w.types, t.e)
  }

  ghost predicate CoversProgram(p: seq<Node>, t: Tables) {
    Below(t.lintTop, t.top) && forall n :: n in p ==> IsStatement(n) && CoversTop(n, t)
  }

  function Hints(p: seq<Node>, t: Tables): seq<Report> {
    LintProgram(FlatAll(p), t.w, t.lintTop, t.recorded)
  }

  /** A statement of the top level that is no function. */
  lemma LintOfOther(n: Node, w: World, top: Table, recorded: string -> Table)
    requires IsStatement(n) && !n.Function?
    ensures LintTop(Flat(n), w, top, recorded) == Lint(Flat(n), w, Place(0, w.file(n.id), 0, top))
  {
    FlatKeepsId(n);
  }

  lemma TopIsCovered(n: Node, t: Tables)
    requires IsStatement(n) && CoversTop(n, t) && Below(t.lintTop, t.top)
    ensures forall r :: r in LintTop(Flat(n), t.w, t.lintTop, t.recorded) ==> r.stmt in Marks(n, t.e, t.top, "")
  {
    if n.Function? {
      FunctionIsCovered(n, t);
    } else {
      OtherIsCovered(n, t);
    }
  }

  lemma OtherIsCovered(n: Node, t: Tables)
    requires IsStatement(n) && !n.Function? && Covers(n, t.w.types, t.e) && Below(t.lintTop, t.top)
    ensures forall r :: r in LintTop(Flat(n), t.w, t.lintTop, t.recorded) ==> r.stmt in Marks(n, t.e, t.top, "")
  {
    var at := Place(0, t.w.file(n.id), 0, t.lintTop);
    LintOfOther(n, t.w, t.lintTop, t.recorded);
    LintIsCovered(n, t.w, t.e, at, t.top, "");
    StatementIsMarked(n, t.w, t.e, at, t.top, "");
  }

  lemma FunctionIsCovered(n: Node, t: Tables)
    requires n.Function? && CoversTop(n, t)
    ensures forall r :: r in LintTop(Flat(n), t.w, t.lintTop, t.recorded) ==> r.stmt in Marks(n, t.e, t.top, "")
  {
    var at := Place(n.id, t.w.file(n.id), n.line, TypesOfTopLevel(n, t.w, t.recorded));
    LintAllIsCovered(n.body, t.w, t.e, at, t.e.types(n.id), n.selfType);
  }

  /** Every statement that the lint reports on, lowered, is in the relevant set of the unlowered program. */
  lemma {:induction false} CoveredSuperset(p: seq<Node>, t: Tables)
    requires CoversProgram(p, t)
    ensures forall r :: r in Hints(p, t) ==> r.stmt in Relevant(p, t.e, t.top)
  {
    if p != [] {
      TopIsCovered(p[0], t);
      CoveredSuperset(p[1..], t);
    }
  }

  lemma TopIsSame(n: Node, t: Tables, v: World, ids: set<nat>)
    requires IsStatement(n) && CoversTop(n, t) && Below(t.lintTop, t.top)
    requires v == t.w.(notes := v.notes) && Agree(t.w.notes, v.notes, ids) && Marks(n, t.e, t.top, "") <= ids
    ensures LintTop(Flat(n), t.w, t.lintTop, t.recorded) == LintTop(Flat(n), v, t.lintTop, t.recorded)
  {
    if n.Function? {
      FunctionIsSame(n, t, v, ids);
    } else {
      LintOfOther(n, t.w, t.lintTop, t.recorded);
      LintOfOther(n, v, t.lintTop, t.recorded);
      SameHints(n, t.w, v, t.e, Place(0, t.w.file(n.id), 0, t.lintTop), t.top, "", ids);
    }
  }

  /** A function whose body gives hints is marked, and so keeps its mode. */
  lemma FunctionIsSame(n: Node, t: Tables, v: World, ids: set<nat>)
    requires n.Function? && CoversTop(n, t)
    requires v == t.w.(notes := v.notes) && Agree(t.w.notes, v.notes, ids) && Marks(n, t.e, t.top, "") <= ids
    ensures LintTop(Flat(n), t.w, t.lintTop, t.recorded) == LintTop(Flat(n), v, t.lintTop, t.recorded)
  {
    var at := Place(n.id, t.w.file(n.id), n.line, TypesOfTopLevel(n, t.w, t.recorded));
    var types := t.e.types(n.id);
    SameHintsAll(n.body, t.w, v, t.e, at, types, n.selfType, ids);
    if HasAny(n.body, t.e, types, n.selfType) {
      assert n.id in ids;
    } else {
      LintAllIsCovered(n.body, t.w, t.e, at, types, n.selfType);
      LintAllIsCovered(n.body, v, t.e, at, types, n.selfType);
    }
  }

  /** The hints of a program depend on the annotations of its relevant statements alone. */
  lemma {:induction false} CoveredHints(p: seq<Node>, t: Tables, v: World, ids: set<nat>)
    requires CoversProgram(p, t) && Relevant(p, t.e, t.top) <= ids
    requires v == t.w.(notes := v.notes) && Agree(t.w.notes, v.notes, ids)
    ensures Hints(p, t) == Hints(p, t.(w := v))
  {
    if p != [] {
      TopIsSame(p[0], t, v, ids);
      CoveredHints(p[1..], t, v, ids);
    }
  }

  // ---------------------------------------------------------------------------------------
  // When the tables cover each other

  /** Filling the gaps of a top-level function gives a table that covers, when every entry that lowering
      lost is among the recorded ones, and lowering changed no other entry. */
  lemma GapsAreFilled(unlowered: Table, lowered: Table, recorded: Table)
    requires forall x :: x in unlowered && x in lowered ==> lowered[x] == unlowered[x]
    requires forall x :: x in unlowered && x !in lowered ==> x in recorded && recorded[x] == unlowered[x]
    ensures Below(Filled(lowered, recorded), unlowered)
  {
  }

  /** The lint with the same table in every function, and no annotations. */
  function Plainly(known: Table): World {
    World(Notes(_ => [], _ => [], _ => ""), _ => "", _ => known)
  }

  /** The analysis with the same table in every function. */
  function Alone(fewer: Table, infer: (Node, Table, string) -> string): Scope {
    Scope(_ => fewer, infer)
  }

  /** A hint below a node means flagged arithmetic there. */
  ghost predicate ReportsAreFlagged(known: Table, fewer: Table, infer: (Node, Table, string) -> string) {
    forall n :: Lint(Flat(n), Plainly(known), Place(0, "", 0, known)) != [] ==> Has(n, Alone(fewer, infer), fewer, "")
  }

  lemma {:induction false} CoversUniformly(n: Node, known: Table, fewer: Table, infer: (Node, Table, string) -> string)
    requires Below(known, fewer)
    ensures Covers(n, Plainly(known).types, Alone(fewer, infer))
    decreases Size(n), 0
  {
    KidsAreSmaller(n);
    CoversUniformlyAll(Kids(n), known, fewer, infer);
  }

  lemma {:induction false} CoversUniformlyAll(ns: seq<Node>, known: Table, fewer: Table,
                                              infer: (Node, Table, string) -> string)
    requires Below(known, fewer)
    ensures CoversAll(ns, Plainly(known).types, Alone(fewer, infer))
    decreases SizeAll(ns), 1
  {
    if ns != [] {
      CoversUniformly(ns[0], known, fewer, infer);
      CoversUniformlyAll(ns[1..], known, fewer, infer);
    }
  }

  /** A call of a function of this name, such as `char-to-str(0)`. */
  function CallOf(c: string): Node {
    Call(Identifier(c, false), [IntegerLiteral], None)
  }

  /** The direct test and the operand kinds part company over `byte`: of the names that the kinds count as no
      integer, given that inference goes by the declared type, the direct test flags a sum iff it is of bytes. */
  lemma DirectBeyondKinds(x: string, types: Table, self: string, infer: (Node, Table, string) -> string)
    requires NameKind(x, types) == NotInteger && infer(Identifier(x, false), types, self) == types[x]
    ensures DirectOverflow(Infix("+", Identifier(x, false), Identifier(x, false), 0), types, self, infer)
            <==> types[x] == "byte"
  {
    assert types[x] in OTHER_TYPES;
  }

  /** The checker infers a type for such a call, and no integer. */
  ghost predicate KnownAsOther(c: string, infer: (Node, Table, string) -> string) {
    forall types, self :: infer(CallOf(c), types, self) != "" && infer(CallOf(c), types, self) !in OVERFLOWING_TYPES
  }

  /** The operation whose hint gets lost when the lint's table has lost what the analysis knows of x: a concatenation
      of x and a call, or a quotient. */
  function Telltale(x: string, fewer: Table, c: string): Node {
    var name := Identifier(x, false);
    if NameKind(x, fewer) == NotInteger then Infix("-", name, CallOf(c), 0) else Infix("/", name, name, 0)
  }

  /** The other operand of the telltale operation. */
  function Partner(x: string, fewer: Table, c: string): Node {
    if NameKind(x, fewer) == NotInteger then CallOf(c) else Identifier(x, false)
  }

  lemma TelltaleKids(x: string, fewer: Table, c: string)
    ensures Kids(Telltale(x, fewer, c)) == [Identifier(x, false)] + [Partner(x, fewer, c)]
    ensures Flat(Telltale(x, fewer, c)) == Telltale(x, fewer, c)
  {
    FlatOfOne(IntegerLiteral);
    assert Flat(Identifier(c, false)) == Identifier(c, false) && Flat(IntegerLiteral) == IntegerLiteral;
    assert Flat(CallOf(c)) == CallOf(c);
  }

  lemma CallKids(c: string)
    ensures Kids(CallOf(c)) == [Identifier(c, false)] + [IntegerLiteral]
  {
  }

  lemma LintOfPair(l: Node, r: Node, w: World, at: Place)
    ensures LintAll([l] + [r], w, at) == Lint(l, w, at) + Lint(r, w, at)
  {
    assert ([l] + [r])[1..] == [r] && [r][1..] == [];
    assert LintAll([r], w, at) == Lint(r, w, at) + [];
  }

  lemma MarksOfPair(l: Node, r: Node, e: Scope, types: Table, self: string)
    ensures HasAny([l] + [r], e, types, self) == (Has(l, e, types, self) || Has(r, e, types, self))
    ensures MarksAll([l] + [r], e, types, self) == Marks(l, e, types, self) + Marks(r, e, types, self)
  {
    MarksOfHead(l, [r], e, types, self);
    MarksOfHead(r, [], e, types, self);
    assert [r] + [] == [r];
  }

  lemma LintOfPartner(x: string, fewer: Table, c: string, w: World, at: Place)
    ensures Lint(Partner(x, fewer, c), w, at) == []
  {
    CallKids(c);
    LintOfPair(Identifier(c, false), IntegerLiteral, w, at);
    assert Lint(Identifier(c, false), w, at) == [] && Lint(IntegerLiteral, w, at) == [];
    assert Lint(CallOf(c), w, at) == [];
  }

  lemma PartnerIsUnmarked(x: string, fewer: Table, c: string, e: Scope, types: Table, self: string)
    ensures !Has(Partner(x, fewer, c), e, types, self) && Marks(Partner(x, fewer, c), e, types, self) == {}
  {
    CallKids(c);
    MarksOfPair(Identifier(c, false), IntegerLiteral, e, types, self);
    assert !Has(IntegerLiteral, e, types, self) && Marks(IntegerLiteral, e, types, self) == {};
    assert !Has(CallOf(c), e, types, self) && Marks(CallOf(c), e, types, self) == {};
  }

  lemma TelltaleIsReported(x: string, w: World, at: Place, fewer: Table, c: string)
    requires Rank(NameKind(x, at.types)) > Rank(NameKind(x, fewer))
    ensures Lint(Flat(Telltale(x, fewer, c)), w, at) == [Report(at.stmt, at.file, at.line, 0)]
  {
    var n := Telltale(x, fewer, c);
    TelltaleKids(x, fewer, c);
    LintOfPartner(x, fewer, c, w, at);
    LintOfPair(Identifier(x, false), Partner(x, fewer, c), w, at);
    assert Lint(Identifier(x, false), w, at) == [];
    assert Own(n, at) == [Report(at.stmt, at.file, at.line, 0)];
  }

  /** The direct test does not flag it either: it knows the call as no integer, and of a quotient it asks the kinds. */
  lemma TelltaleIsMissed(x: string, e: Scope, fewer: Table, c: string, self: string)
    requires NameKind(x, fewer) != Signed && KnownAsOther(c, e.infer)
    ensures !Has(Telltale(x, fewer, c), e, fewer, self) && Marks(Telltale(x, fewer, c), e, fewer, self) == {}
  {
    var n := Telltale(x, fewer, c);
    TelltaleKids(x, fewer, c);
    PartnerIsUnmarked(x, fewer, c, e, fewer, self);
    MarksOfPair(Identifier(x, false), Partner(x, fewer, c), e, fewer, self);
    assert !Has(Identifier(x, false), e, fewer, self) && Marks(Identifier(x, false), e, fewer, self) == {};
    assert !DirectOverflow(n, fewer, self, e.infer) && !FlaggedByLint(n.op, n.left, n.right, fewer);
  }

  lemma TelltaleIsLost(x: string, known: Table, fewer: Table, c: string, infer: (Node, Table, string) -> string)
    requires Rank(NameKind(x, known)) > Rank(NameKind(x, fewer)) && KnownAsOther(c, infer)
    ensures Lint(Flat(Telltale(x, fewer, c)), Plainly(known), Place(0, "", 0, known)) != []
    ensures !Has(Telltale(x, fewer, c), Alone(fewer, infer), fewer, "")
  {
    TelltaleIsReported(x, Plainly(known), Place(0, "", 0, known), fewer, c);
    TelltaleIsMissed(x, Alone(fewer, infer), fewer, c, "");
  }

  /** The condition on the tables is exactly what the superset property needs: a table that is not below
      loses the statement of some operation. */
  lemma SupersetIffBelow(known: Table, fewer: Table, c: string, infer: (Node, Table, string) -> string)
    requires KnownAsOther(c, infer)
    ensures ReportsAreFlagged(known, fewer, infer) <==> Below(known, fewer)
  {
    if Below(known, fewer) {
      forall n
        ensures Lint(Flat(n), Plainly(known), Place(0, "", 0, known)) != [] ==> Has(n, Alone(fewer, infer), fewer, "")
      {
        CoversUniformly(n, known, fewer, infer);
        LintIsCovered(n, Plainly(known), Alone(fewer, infer), Place(0, "", 0, known), fewer, "");
      }
    }
    if ReportsAreFlagged(known, fewer, infer) {
      forall x: string
        ensures Rank(NameKind(x, known)) <= Rank(NameKind(x, fewer))
      {
        if Rank(NameKind(x, known)) > Rank(NameKind(x, fewer)) {
          TelltaleIsLost(x, known, fewer, c, infer);
        }
      }
    }
  }
}

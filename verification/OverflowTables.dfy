/** Which losses of table entries the two overflow analyses can bear: the superset property and the harmless
    deletion of annotations, for whole programs, under a condition that is exact. */
module OverflowTables {
  import opened Wrappers
  import opened OverflowTree
  import opened OverflowLint
  import opened OverflowRelevance
  import opened OverflowTheorems

  // ---------------------------------------------------------------------------------------
  // One table

  /** Every name that the unlowered tree declares as something else than a signed integer is at most as much of an
      integer in the lowered one, or, if that has lost it, among the recorded types. */
  ghost predicate Harmless(lowered: Table, recorded: Table, unlowered: Table) {
    forall x :: x in unlowered && NameKind(x, unlowered) != Signed ==> Carries(lowered, recorded, unlowered, x)
  }

  predicate Carries(lowered: Table, recorded: Table, unlowered: Table, x: string) {
    if x in lowered then Rank(NameKind(x, lowered)) <= Rank(NameKind(x, unlowered))
    else x in recorded && Rank(NameKind(x, recorded)) <= Rank(NameKind(x, unlowered))
  }

  lemma BelowIffHarmless(lowered: Table, recorded: Table, unlowered: Table)
    ensures Below(Filled(lowered, recorded), unlowered) <==> Harmless(lowered, recorded, unlowered)
  {
    forall x: string
      ensures Rank(NameKind(x, Filled(lowered, recorded))) <= Rank(NameKind(x, unlowered))
              <==> (x in unlowered && NameKind(x, unlowered) != Signed ==> Carries(lowered, recorded, unlowered, x))
    {
    }
  }

  lemma BelowIffHarmlessAlone(lowered: Table, unlowered: Table)
    ensures Below(lowered, unlowered) <==> Harmless(lowered, map[], unlowered)
  {
    BelowIffHarmless(lowered, map[], unlowered);
    assert Filled(lowered, map[]) == lowered;
  }

  /** Lowering has lost and changed no entry. */
  ghost predicate Kept(lowered: Table, unlowered: Table) {
    forall x :: x in unlowered ==> x in lowered && lowered[x] == unlowered[x]
  }

  /** Lowering has changed no entry, and the parser recorded those that it lost. */
  ghost predicate LostAreRecorded(lowered: Table, recorded: Table, unlowered: Table) {
    forall x :: x in unlowered ==> if x in lowered then lowered[x] == unlowered[x]
                                   else x in recorded && recorded[x] == unlowered[x]
  }

  lemma KeptIsHarmless(lowered: Table, unlowered: Table)
    requires Kept(lowered, unlowered)
    ensures Harmless(lowered, map[], unlowered)
  {
    MoreEntriesAreBelow(lowered, unlowered);
    BelowIffHarmlessAlone(lowered, unlowered);
  }

  lemma RecordedIsHarmless(lowered: Table, recorded: Table, unlowered: Table)
    requires LostAreRecorded(lowered, recorded, unlowered)
    ensures Harmless(lowered, recorded, unlowered)
  {
    GapsAreFilled(unlowered, lowered, recorded);
    BelowIffHarmless(lowered, recorded, unlowered);
  }

  // ---------------------------------------------------------------------------------------
  // The tables of a program

  /** The functions at or below a node. */
  function Functions(n: Node): set<nat>
    decreases Size(n), 0
  {
    KidsAreSmaller(n);
    (if n.Function? then {n.id} else {}) + FunctionsOf(Kids(n))
  }

  function FunctionsOf(ns: seq<Node>): set<nat>
    decreases SizeAll(ns), 1
  {
    if ns == [] then {} else Functions(ns[0]) + FunctionsOf(ns[1..])
  }

  /** The functions of a program that stand below its top level. */
  function NestedIn(n: Node): set<nat> {
    if n.Function? then FunctionsOf(n.body) else Functions(n)
  }

  function Nested(p: seq<Node>): set<nat> {
    if p == [] then {} else NestedIn(p[0]) + Nested(p[1..])
  }

  function RecordedFor(called: string, t: Tables): Table {
    if called != "" then t.recorded(called) else map[]
  }

  ghost predicate HarmlessTop(n: Node, t: Tables)
    requires n.Function?
  {
    Harmless(t.w.types(n.id), RecordedFor(n.called, t), t.e.types(n.id))
  }

  ghost predicate AllStatements(p: seq<Node>) {
    forall n :: n in p ==> IsStatement(n)
  }

  /** The tables of each part of the program are harmless, each read as the lint reads it: gaps are filled for
      functions of the top level alone. */
  ghost predicate HarmlessProgram(p: seq<Node>, t: Tables) {
    && Harmless(t.lintTop, map[], t.top)
    && (forall n :: n in p && n.Function? ==> HarmlessTop(n, t))
    && (forall id :: id in Nested(p) ==> Harmless(t.w.types(id), map[], t.e.types(id)))
  }

  /** Top-level code and nested functions keep their entries, and functions of the top level lose recorded ones only. */
  ghost predicate KeptProgram(p: seq<Node>, t: Tables) {
    && Kept(t.lintTop, t.top)
    && (forall n :: n in p && n.Function? ==>
          LostAreRecorded(t.w.types(n.id), RecordedFor(n.called, t), t.e.types(n.id)))
    && (forall id :: id in Nested(p) ==> Kept(t.w.types(id), t.e.types(id)))
  }

  lemma KeptProgramIsHarmless(p: seq<Node>, t: Tables)
    requires KeptProgram(p, t)
    ensures HarmlessProgram(p, t)
  {
    KeptIsHarmless(t.lintTop, t.top);
    forall n | n in p && n.Function?
      ensures HarmlessTop(n, t)
    {
      RecordedIsHarmless(t.w.types(n.id), RecordedFor(n.called, t), t.e.types(n.id));
    }
    forall id | id in Nested(p)
      ensures Harmless(t.w.types(id), map[], t.e.types(id))
    {
      KeptIsHarmless(t.w.types(id), t.e.types(id));
    }
  }

  ghost predicate BelowAt(id: nat, lint: nat -> Table, e: Scope) {
    Below(lint(id), e.types(id))
  }

  lemma {:induction false} CoversIff(n: Node, lint: nat -> Table, e: Scope)
    ensures Covers(n, lint, e) <==> forall id :: id in Functions(n) ==> BelowAt(id, lint, e)
    decreases Size(n), 0
  {
    KidsAreSmaller(n);
    CoversAllIff(Kids(n), lint, e);
    assert forall id :: id in Functions(n) <==> (n.Function? && id == n.id) || id in FunctionsOf(Kids(n));
    assert n.Function? ==> BelowAt(n.id, lint, e) == Below(lint(n.id), e.types(n.id));
  }

  lemma {:induction false} CoversAllIff(ns: seq<Node>, lint: nat -> Table, e: Scope)
    ensures CoversAll(ns, lint, e) <==> forall id :: id in FunctionsOf(ns) ==> BelowAt(id, lint, e)
    decreases SizeAll(ns), 1
  {
    if ns != [] {
      CoversIff(ns[0], lint, e);
      CoversAllIff(ns[1..], lint, e);
    }
  }

  ghost predicate CoversNested(n: Node, t: Tables) {
    if n.Function? then CoversAll(n.body, t.w.types, t.e) else Covers(n, t.w.types, t.e)
  }

  lemma CoversNestedOne(n: Node, t: Tables)
    ensures CoversNested(n, t) <==> forall id :: id in NestedIn(n) ==> BelowAt(id, t.w.types, t.e)
  {
    if n.Function? {
      CoversAllIff(n.body, t.w.types, t.e);
    } else {
      CoversIff(n, t.w.types, t.e);
    }
  }

  lemma {:induction false} CoversNestedIff(p: seq<Node>, t: Tables)
    ensures (forall n :: n in p ==> CoversNested(n, t))
        <==> (forall id :: id in Nested(p) ==> BelowAt(id, t.w.types, t.e))
  {
    if p != [] {
      CoversNestedOne(p[0], t);
      CoversNestedIff(p[1..], t);
      assert p[0] in p && forall n :: n in p <==> n == p[0] || n in p[1..];
      assert forall id :: id in Nested(p) <==> id in NestedIn(p[0]) || id in Nested(p[1..]);
    }
  }

  lemma CoversTopIff(n: Node, t: Tables)
    ensures CoversTop(n, t) <==> CoversNested(n, t) && (n.Function? ==> HarmlessTop(n, t))
  {
    if n.Function? {
      BelowIffHarmless(t.w.types(n.id), RecordedFor(n.called, t), t.e.types(n.id));
      assert Filled(t.w.types(n.id), map[]) == t.w.types(n.id);
    }
  }

  /** What the proofs about whole programs ask of the tables is exactly that they are harmless. */
  lemma CoversIffHarmless(p: seq<Node>, t: Tables)
    requires AllStatements(p)
    ensures CoversProgram(p, t) <==> HarmlessProgram(p, t)
  {
    BelowIffHarmlessAlone(t.lintTop, t.top);
    CoversNestedIff(p, t);
    forall n | n in p
      ensures CoversTop(n, t) <==> CoversNested(n, t) && (n.Function? ==> HarmlessTop(n, t))
    {
      CoversTopIff(n, t);
    }
    forall id | id in Nested(p)
      ensures BelowAt(id, t.w.types, t.e) <==> Harmless(t.w.types(id), map[], t.e.types(id))
    {
      BelowIffHarmlessAlone(t.w.types(id), t.e.types(id));
    }
  }

  // ---------------------------------------------------------------------------------------
  // What follows for the program

  ghost predicate HintsAreRelevant(p: seq<Node>, t: Tables) {
    forall r :: r in Hints(p, t) ==> r.stmt in Relevant(p, t.e, t.top)
  }

  /** Every statement that the lint reports on, lowered, is in the relevant set of the unlowered program. */
  lemma Superset(p: seq<Node>, t: Tables)
    requires AllStatements(p) && HarmlessProgram(p, t)
    ensures HintsAreRelevant(p, t)
  {
    CoversIffHarmless(p, t);
    CoveredSuperset(p, t);
  }

  /** The hints of a program depend on the annotations of its relevant statements alone. */
  lemma OnlyRelevantAnnotationsMatter(p: seq<Node>, t: Tables, notes: Notes)
    requires AllStatements(p) && HarmlessProgram(p, t) && Agree(t.w.notes, notes, Relevant(p, t.e, t.top))
    ensures Hints(p, t) == Hints(p, t.(w := t.w.(notes := notes)))
  {
    CoversIffHarmless(p, t);
    CoveredHints(p, t, t.w.(notes := notes), Relevant(p, t.e, t.top));
  }

  function WithoutOverflow(keys: seq<string>): (left: seq<string>)
    ensures "overflow" !in left
    ensures forall k :: k != "overflow" ==> (k in left <==> k in keys)
  {
    if keys == [] then []
    else (if keys[0] == "overflow" then [] else [keys[0]]) + WithoutOverflow(keys[1..])
  }

  /** The annotations once the overflow annotations outside the relevant set are gone. */
  function Formatted(notes: Notes, relevant: set<nat>): Notes {
    Notes((id: nat) => if id in relevant then notes.resolved(id) else WithoutOverflow(notes.resolved(id)),
          (id: nat) => if id in relevant then notes.raw(id) else WithoutOverflow(notes.raw(id)),
          (id: nat) => if id in relevant then notes.mode(id) else "")
  }

  /** What is left of the tables when the formatter has deleted all that the analysis lets it. */
  function AfterFormatting(p: seq<Node>, t: Tables): Tables {
    t.(w := t.w.(notes := Formatted(t.w.notes, Relevant(p, t.e, t.top))))
  }

  /** Deleting every overflow annotation outside the relevant set leaves the hints of the program as they were. */
  lemma DeletionIsHarmless(p: seq<Node>, t: Tables)
    requires AllStatements(p) && HarmlessProgram(p, t)
    ensures Hints(p, AfterFormatting(p, t)) == Hints(p, t)
  {
    OnlyRelevantAnnotationsMatter(p, t, Formatted(t.w.notes, Relevant(p, t.e, t.top)));
  }

  /** In terms of the facts: it does when lowering keeps the entries of top-level code and of nested functions, and
      loses of the functions of the top level no entry that the parser has not recorded. */
  lemma DeletionIsHarmlessIfKept(p: seq<Node>, t: Tables)
    requires AllStatements(p) && KeptProgram(p, t)
    ensures HintsAreRelevant(p, t) && Hints(p, AfterFormatting(p, t)) == Hints(p, t)
  {
    KeptProgramIsHarmless(p, t);
    Superset(p, t);
    DeletionIsHarmless(p, t);
  }

  // ---------------------------------------------------------------------------------------
  // The condition is exact

  /** Which functions are nested, and what those of the top level are called. */
  datatype Shape = Shape(nested: nat -> bool, called: nat -> string)

  ghost predicate Fits(p: seq<Node>, shape: Shape) {
    && AllStatements(p)
    && (forall n :: n in p && n.Function? ==> !shape.nested(n.id) && n.called == shape.called(n.id))
    && (forall id :: id in Nested(p) ==> shape.nested(id))
  }

  function RecordedAt(id: nat, shape: Shape, t: Tables): Table {
    if shape.nested(id) then map[] else RecordedFor(shape.called(id), t)
  }

  ghost predicate HarmlessShape(shape: Shape, t: Tables) {
    && Harmless(t.lintTop, map[], t.top)
    && forall id :: Harmless(t.w.types(id), RecordedAt(id, shape, t), t.e.types(id))
  }

  function Noted(t: Tables, notes: Notes): Tables {
    t.(w := t.w.(notes := notes))
  }

  /** The superset property, of all programs with these tables and any annotations. */
  ghost predicate SupersetAlways(shape: Shape, t: Tables) {
    forall p, notes :: Fits(p, shape) ==> HintsAreRelevant(p, Noted(t, notes))
  }

  /** Formatting changes no hint, of all programs with these tables and any annotations. */
  ghost predicate DeletionAlways(shape: Shape, t: Tables) {
    forall p, notes :: Fits(p, shape) ==> SameHintsAfter(p, Noted(t, notes))
  }

  ghost predicate SameHintsAfter(p: seq<Node>, t: Tables) {
    Hints(p, AfterFormatting(p, t)) == Hints(p, t)
  }

  lemma HarmlessIsEnough(shape: Shape, t: Tables)
    requires HarmlessShape(shape, t)
    ensures SupersetAlways(shape, t) && DeletionAlways(shape, t)
  {
    forall p: seq<Node>, notes: Notes | Fits(p, shape)
      ensures HintsAreRelevant(p, Noted(t, notes)) && SameHintsAfter(p, Noted(t, notes))
    {
      var u := Noted(t, notes);
      forall n | n in p && n.Function?
        ensures HarmlessTop(n, u)
      {
        assert Harmless(t.w.types(n.id), RecordedAt(n.id, shape, t), t.e.types(n.id));
      }
      forall id | id in Nested(p)
        ensures Harmless(u.w.types(id), map[], u.e.types(id))
      {
        assert Harmless(t.w.types(id), RecordedAt(id, shape, t), t.e.types(id));
      }
      Superset(p, u);
      DeletionIsHarmless(p, u);
    }
  }

  ghost predicate Unannotated(notes: Notes) {
    forall id :: "overflow" !in notes.resolved(id) && "overflow" !in notes.raw(id) && notes.mode(id) == ""
  }

  /** The notes with an overflow annotation on one statement alone. */
  function Only(id: nat): Notes {
    Notes((k: nat) => if k == id then ["overflow"] else [], (k: nat) => [], (k: nat) => "")
  }

  /** Nothing is relevant in the program, and yet it has a hint just when that statement is not annotated. */
  ghost predicate Telling(p: seq<Node>, id: nat, t: Tables) {
    && Relevant(p, t.e, t.top) == {}
    && Hints(p, Noted(t, Only(id))) == []
    && forall notes :: Unannotated(notes) ==> Hints(p, Noted(t, notes)) != []
  }

  lemma NothingIsKept(notes: Notes)
    ensures Unannotated(Formatted(notes, {}))
  {
    var left := Formatted(notes, {});
    forall id
      ensures "overflow" !in left.resolved(id) && "overflow" !in left.raw(id) && left.mode(id) == ""
    {
      assert left.resolved(id) == WithoutOverflow(notes.resolved(id)) && left.raw(id) == WithoutOverflow(notes.raw(id));
    }
  }

  lemma TellingRefutes(p: seq<Node>, id: nat, shape: Shape, t: Tables)
    requires Fits(p, shape) && Telling(p, id, t)
    ensures !SupersetAlways(shape, t) && !DeletionAlways(shape, t)
  {
    var notes := Formatted(Only(id), Relevant(p, t.e, t.top));
    NothingIsKept(Only(id));
    var r := Hints(p, Noted(t, notes))[0];
    assert r in Hints(p, Noted(t, notes)) && !HintsAreRelevant(p, Noted(t, notes));
    assert AfterFormatting(p, Noted(t, Only(id))) == Noted(t, notes);
    assert !SameHintsAfter(p, Noted(t, Only(id)));
  }

  /** The statement whose hint is lost. */
  function Lost(id: nat, x: string, fewer: Table, c: string): Node {
    ExpressionStatement(id, 0, Telltale(x, fewer, c))
  }

  lemma FlatLost(id: nat, x: string, fewer: Table, c: string)
    ensures Flat(Lost(id, x, fewer, c)) == Lost(id, x, fewer, c)
  {
    TelltaleKids(x, fewer, c);
  }

  lemma LostIsReported(id: nat, x: string, w: World, at: Place, fewer: Table, c: string)
    requires Rank(NameKind(x, at.types)) > Rank(NameKind(x, fewer))
    ensures Annotated(Lost(id, x, fewer, c), w.notes) ==> Lint(Flat(Lost(id, x, fewer, c)), w, at) == []
    ensures !Annotated(Lost(id, x, fewer, c), w.notes) ==> Lint(Flat(Lost(id, x, fewer, c)), w, at) != []
  {
    var n := Lost(id, x, fewer, c);
    FlatLost(id, x, fewer, c);
    if !Annotated(n, w.notes) {
      TelltaleKids(x, fewer, c);
      TelltaleIsReported(x, w, Inside(n, w, at), fewer, c);
      LintAllOfOne(n.value, w, Inside(n, w, at));
    }
  }

  lemma LintAllOfOne(n: Node, w: World, at: Place)
    ensures LintAll([n], w, at) == Lint(n, w, at)
  {
    assert [n][1..] == [];
  }

  lemma MarksAllOfOne(n: Node, e: Scope, types: Table, self: string)
    ensures MarksAll([n], e, types, self) == Marks(n, e, types, self)
    ensures HasAny([n], e, types, self) == Has(n, e, types, self)
  {
    assert [n][1..] == [];
  }

  lemma LostIsUnmarked(id: nat, x: string, e: Scope, fewer: Table, c: string, self: string)
    requires NameKind(x, fewer) != Signed && KnownAsOther(c, e.infer)
    ensures !Has(Lost(id, x, fewer, c), e, fewer, self) && Marks(Lost(id, x, fewer, c), e, fewer, self) == {}
  {
    var n := Lost(id, x, fewer, c);
    TelltaleIsMissed(x, e, fewer, c, self);
    MarksAllOfOne(n.value, e, fewer, self);
  }

  lemma HintsOfOne(n: Node, t: Tables)
    ensures Hints([n], t) == LintTop(Flat(n), t.w, t.lintTop, t.recorded)
  {
    FlatOfOne(n);
    assert [Flat(n)][1..] == [];
    assert LintProgram([], t.w, t.lintTop, t.recorded) == [];
  }

  lemma NestedOfOne(n: Node)
    ensures Nested([n]) == NestedIn(n)
  {
    assert [n][1..] == [];
  }

  /** The hints are there just when the statement is not annotated. */
  ghost predicate Depends(hints: seq<Report>, notes: Notes, id: nat) {
    (notes == Only(id) ==> hints == []) && (Unannotated(notes) ==> hints != [])
  }

  lemma LostDepends(id: nat, x: string, w: World, at: Place, fewer: Table, c: string)
    requires Rank(NameKind(x, at.types)) > Rank(NameKind(x, fewer))
    ensures Depends(Lint(Flat(Lost(id, x, fewer, c)), w, at), w.notes, id)
  {
    LostIsReported(id, x, w, at, fewer, c);
  }

  lemma Tells(n: Node, id: nat, t: Tables)
    requires Relevant([n], t.e, t.top) == {}
    requires forall notes {:trigger Noted(t, notes)} :: Depends(Hints([n], Noted(t, notes)), notes, id)
    ensures Telling([n], id, t)
  {
    assert Depends(Hints([n], Noted(t, Only(id))), Only(id), id);
    forall notes | Unannotated(notes)
      ensures Hints([n], Noted(t, notes)) != []
    {
      assert Depends(Hints([n], Noted(t, notes)), notes, id);
    }
  }

  /** A violation at the top level. */
  lemma TopTells(shape: Shape, t: Tables, x: string, c: string)
    requires KnownAsOther(c, t.e.infer) && Rank(NameKind(x, t.lintTop)) > Rank(NameKind(x, t.top))
    ensures Fits([Lost(0, x, t.top, c)], shape) && Telling([Lost(0, x, t.top, c)], 0, t)
  {
    var n := Lost(0, x, t.top, c);
    TopFits(n, x, shape, t.top, c);
    LostIsUnmarked(0, x, t.e, t.top, c, "");
    MarksAllOfOne(n, t.e, t.top, "");
    forall notes
      ensures Depends(Hints([n], Noted(t, notes)), notes, 0)
    {
      TopDepends(n, x, Noted(t, notes), c);
    }
    Tells(n, 0, t);
  }

  lemma TopDepends(n: Node, x: string, t: Tables, c: string)
    requires n == Lost(0, x, t.top, c) && Rank(NameKind(x, t.lintTop)) > Rank(NameKind(x, t.top))
    ensures Depends(Hints([n], t), t.w.notes, 0)
  {
    HintsOfOne(n, t);
    LostDepends(0, x, t.w, Place(0, t.w.file(0), 0, t.lintTop), t.top, c);
  }

  lemma TopFits(n: Node, x: string, shape: Shape, fewer: Table, c: string)
    requires n == Lost(0, x, fewer, c)
    ensures Fits([n], shape)
  {
    NestedOfOne(n);
    LostHasNoFunctions(0, x, fewer, c);
  }

  lemma FunctionsOfOne(n: Node)
    ensures FunctionsOf([n]) == Functions(n)
  {
    assert [n][1..] == [];
  }

  lemma FunctionsOfPair(l: Node, r: Node)
    ensures FunctionsOf([l] + [r]) == Functions(l) + Functions(r)
  {
    assert ([l] + [r])[1..] == [r];
    FunctionsOfOne(r);
  }

  lemma LostHasNoFunctions(id: nat, x: string, fewer: Table, c: string)
    ensures Functions(Lost(id, x, fewer, c)) == {}
  {
    var n := Telltale(x, fewer, c);
    TelltaleKids(x, fewer, c);
    PartnerHasNoFunctions(x, fewer, c);
    FunctionsOfPair(Identifier(x, false), Partner(x, fewer, c));
    assert Functions(Identifier(x, false)) == {};
    FunctionsOfOne(n);
  }

  lemma PartnerHasNoFunctions(x: string, fewer: Table, c: string)
    ensures Functions(Partner(x, fewer, c)) == {}
  {
    CallKids(c);
    FunctionsOfPair(Identifier(c, false), IntegerLiteral);
    assert Functions(Identifier(c, false)) == {} && Functions(IntegerLiteral) == {};
    assert Functions(CallOf(c)) == {};
  }

  /** A function whose only statement is the lost one. */
  function Losing(id: nat, called: string, x: string, fewer: Table, c: string): Node {
    Function(id, 0, called, "", [Lost(id + 1, x, fewer, c)])
  }

  lemma LosingIsUnmarked(id: nat, called: string, x: string, c: string, e: Scope, types: Table, self: string)
    requires NameKind(x, e.types(id)) != Signed && KnownAsOther(c, e.infer)
    ensures !Has(Losing(id, called, x, e.types(id), c), e, types, self)
    ensures Marks(Losing(id, called, x, e.types(id), c), e, types, self) == {}
  {
    LostIsUnmarked(id + 1, x, e, e.types(id), c, "");
    MarksAllOfOne(Lost(id + 1, x, e.types(id), c), e, e.types(id), "");
  }

  /** Its hints, when its body is read with these types. */
  lemma LosingDepends(f: Node, x: string, w: World, at: Place, fewer: Table, c: string)
    requires f.Function? && f.body == [Lost(f.id + 1, x, fewer, c)]
    requires Rank(NameKind(x, at.types)) > Rank(NameKind(x, fewer))
    ensures Depends(LintAll(Flat(f).body, w, at), w.notes, f.id + 1)
  {
    FlatOfOne(f.body[0]);
    LintAllOfOne(Flat(f.body[0]), w, at);
    LostDepends(f.id + 1, x, w, at, fewer, c);
  }

  /** A violation in a function of the top level, after its gaps have been filled. */
  lemma FunctionTells(shape: Shape, t: Tables, id: nat, x: string, c: string)
    requires KnownAsOther(c, t.e.infer) && !shape.nested(id)
    requires Rank(NameKind(x, Filled(t.w.types(id), RecordedAt(id, shape, t)))) > Rank(NameKind(x, t.e.types(id)))
    ensures Fits([Losing(id, shape.called(id), x, t.e.types(id), c)], shape)
    ensures Telling([Losing(id, shape.called(id), x, t.e.types(id), c)], id + 1, t)
  {
    var f := Losing(id, shape.called(id), x, t.e.types(id), c);
    FunctionFits(f, x, shape, t.e.types(id), c);
    LosingIsIrrelevant(f, x, c, t.e, t.top);
    forall notes
      ensures Depends(Hints([f], Noted(t, notes)), notes, id + 1)
    {
      FunctionDepends(f, x, shape, t, notes, c);
    }
    Tells(f, id + 1, t);
  }

  lemma LosingIsIrrelevant(f: Node, x: string, c: string, e: Scope, top: Table)
    requires f.Function? && f == Losing(f.id, f.called, x, e.types(f.id), c)
    requires NameKind(x, e.types(f.id)) != Signed && KnownAsOther(c, e.infer)
    ensures Relevant([f], e, top) == {}
  {
    LosingIsUnmarked(f.id, f.called, x, c, e, top, "");
    MarksAllOfOne(f, e, top, "");
  }

  lemma FunctionFits(f: Node, x: string, shape: Shape, fewer: Table, c: string)
    requires f.Function? && f == Losing(f.id, shape.called(f.id), x, fewer, c) && !shape.nested(f.id)
    ensures Fits([f], shape)
  {
    NestedOfOne(f);
    FunctionsOfOne(f.body[0]);
    LostHasNoFunctions(f.id + 1, x, fewer, c);
  }

  lemma FunctionDepends(f: Node, x: string, shape: Shape, t: Tables, notes: Notes, c: string)
    requires f.Function? && f == Losing(f.id, shape.called(f.id), x, t.e.types(f.id), c) && !shape.nested(f.id)
    requires Rank(NameKind(x, Filled(t.w.types(f.id), RecordedAt(f.id, shape, t)))) > Rank(NameKind(x, t.e.types(f.id)))
    ensures Depends(Hints([f], Noted(t, notes)), notes, f.id + 1)
  {
    var u := Noted(t, notes);
    assert Filled(t.w.types(f.id), map[]) == t.w.types(f.id);
    var at := Place(f.id, u.w.file(f.id), 0, TypesOfTopLevel(f, u.w, u.recorded));
    HintsOfOne(f, u);
    LosingDepends(f, x, u.w, at, t.e.types(f.id), c);
  }

  /** A violation in a nested function, whose gaps are never filled. */
  lemma NestedTells(shape: Shape, t: Tables, id: nat, x: string, c: string)
    requires KnownAsOther(c, t.e.infer) && shape.nested(id)
    requires Rank(NameKind(x, t.w.types(id))) > Rank(NameKind(x, t.e.types(id)))
    ensures var p := [Block(id + 2, 0, [Losing(id, "", x, t.e.types(id), c)])]; Fits(p, shape) && Telling(p, id + 1, t)
  {
    var f := Losing(id, "", x, t.e.types(id), c);
    var b := Block(id + 2, 0, [f]);
    BlockFits(b, f, x, shape, t.e.types(id), c);
    LosingIsUnmarked(id, "", x, c, t.e, t.top, "");
    MarksAllOfOne(f, t.e, t.top, "");
    BlockIsUnmarked(b, t.e, t.top);
    forall notes
      ensures Depends(Hints([b], Noted(t, notes)), notes, id + 1)
    {
      BlockDepends(b, f, x, Noted(t, notes), c);
    }
    Tells(b, id + 1, t);
  }

  lemma BlockIsUnmarked(b: Node, e: Scope, types: Table)
    requires b.Block? && !HasAny(b.body, e, types, "") && MarksAll(b.body, e, types, "") == {}
    ensures Relevant([b], e, types) == {}
  {
    MarksAllOfOne(b, e, types, "");
  }

  lemma BlockFits(b: Node, f: Node, x: string, shape: Shape, fewer: Table, c: string)
    requires b.Block? && b.body == [f] && f.Function? && f == Losing(f.id, "", x, fewer, c) && shape.nested(f.id)
    ensures Fits([b], shape)
  {
    NestedOfOne(b);
    FunctionsOfOne(f);
    FunctionsOfOne(f.body[0]);
    LostHasNoFunctions(f.id + 1, x, fewer, c);
  }

  lemma BlockDepends(b: Node, f: Node, x: string, t: Tables, c: string)
    requires b.Block? && b.body == [f] && f.Function? && b.id == f.id + 2
    requires f == Losing(f.id, f.called, x, t.e.types(f.id), c)
    requires Rank(NameKind(x, t.w.types(f.id))) > Rank(NameKind(x, t.e.types(f.id)))
    ensures Depends(Hints([b], t), t.w.notes, f.id + 1)
  {
    if t.w.notes == Only(f.id + 1) || Unannotated(t.w.notes) {
      var at := Place(0, t.w.file(b.id), 0, t.lintTop);
      HintsOfOne(b, t);
      HintsOfBlock(b, f, t.w, at);
      InnerDepends(f, x, t, Inside(Flat(b), t.w, at), c);
    }
  }

  lemma HintsOfBlock(b: Node, f: Node, w: World, at: Place)
    requires b.Block? && b.body == [f] && !Annotated(b, w.notes)
    ensures Lint(Flat(b), w, at) == Lint(Flat(f), w, Inside(Flat(b), w, at))
  {
    FlatOfOne(f);
    LintAllOfOne(Flat(f), w, Inside(Flat(b), w, at));
  }

  lemma InnerDepends(f: Node, x: string, t: Tables, at: Place, c: string)
    requires f.Function? && f == Losing(f.id, f.called, x, t.e.types(f.id), c)
    requires t.w.notes == Only(f.id + 1) || Unannotated(t.w.notes)
    requires Rank(NameKind(x, t.w.types(f.id))) > Rank(NameKind(x, t.e.types(f.id)))
    ensures Depends(Lint(Flat(f), t.w, at), t.w.notes, f.id + 1)
  {
    LosingDepends(f, x, t.w, Inside(Flat(f), t.w, at), t.e.types(f.id), c);
  }

  /** The superset property holds of all programs with these tables iff the tables are harmless, and so does the
      harmless deletion of annotations. */
  lemma AlwaysIffHarmless(shape: Shape, t: Tables, c: string)
    requires KnownAsOther(c, t.e.infer)
    ensures SupersetAlways(shape, t) <==> HarmlessShape(shape, t)
    ensures DeletionAlways(shape, t) <==> HarmlessShape(shape, t)
  {
    if HarmlessShape(shape, t) {
      HarmlessIsEnough(shape, t);
    } else if !Harmless(t.lintTop, map[], t.top) {
      BelowIffHarmlessAlone(t.lintTop, t.top);
      var x :| Rank(NameKind(x, t.lintTop)) > Rank(NameKind(x, t.top));
      TopTells(shape, t, x, c);
      TellingRefutes([Lost(0, x, t.top, c)], 0, shape, t);
    } else {
      var id: nat :| !Harmless(t.w.types(id), RecordedAt(id, shape, t), t.e.types(id));
      HarmIsTold(shape, t, id, c);
    }
  }

  lemma HarmIsTold(shape: Shape, t: Tables, id: nat, c: string)
    requires KnownAsOther(c, t.e.infer) && !Harmless(t.w.types(id), RecordedAt(id, shape, t), t.e.types(id))
    ensures !SupersetAlways(shape, t) && !DeletionAlways(shape, t)
  {
    BelowIffHarmless(t.w.types(id), RecordedAt(id, shape, t), t.e.types(id));
    var known := Filled(t.w.types(id), RecordedAt(id, shape, t));
    var x :| Rank(NameKind(x, known)) > Rank(NameKind(x, t.e.types(id)));
    if shape.nested(id) {
      assert known == t.w.types(id);
      NestedTells(shape, t, id, x, c);
      TellingRefutes([Block(id + 2, 0, [Losing(id, "", x, t.e.types(id), c)])], id + 1, shape, t);
    } else {
      FunctionTells(shape, t, id, x, c);
      TellingRefutes([Losing(id, shape.called(id), x, t.e.types(id), c)], id + 1, shape, t);
    }
  }

  // ---------------------------------------------------------------------------------------
  // The reachable failure

  /** `x str = xs[i]`, a declaration that lowering takes apart. */
  function Declares(id: nat, x: string, xs: string, i: string): Node {
    Let(id, 0, Some(x), Some("str"), Index(Identifier(xs, false), Identifier(i, false)))
  }

  lemma DeclarationIsUnmarked(n: Node, x: string, xs: string, i: string, e: Scope, types: Table, self: string)
    requires n.Let? && n == Declares(n.id, x, xs, i)
    ensures !Has(n, e, types, self) && Marks(n, e, types, self) == {}
  {
    var l, r := n.value.left, n.value.index;
    assert Kids(n.value) == [l] + [r];
    MarksOfPair(l, r, e, types, self);
    assert !Has(l, e, types, self) && !Has(r, e, types, self);
    MarksAllOfOne(n.value, e, types, self);
  }

  /** g declares x as a string and goes on with the lost statement. */
  ghost predicate LosesWithin(g: Node, x: string, xs: string, i: string, types: Table, c: string) {
    && g.Function? && |g.body| == 2
    && g.body[0].Let? && g.body[0] == Declares(g.body[0].id, x, xs, i)
    && g.body[1].ExpressionStatement? && g.body[1] == Lost(g.body[1].id, x, types, c)
  }

  lemma LosesWithinIsUnmarked(g: Node, x: string, xs: string, i: string, c: string, e: Scope, types: Table,
                              self: string)
    requires g.Function? && LosesWithin(g, x, xs, i, e.types(g.id), c)
    requires NameKind(x, e.types(g.id)) != Signed && KnownAsOther(c, e.infer)
    ensures !Has(g, e, types, self) && Marks(g, e, types, self) == {}
  {
    var decl, lost := g.body[0], g.body[1];
    DeclarationIsUnmarked(decl, x, xs, i, e, e.types(g.id), g.selfType);
    LostIsUnmarked(lost.id, x, e, e.types(g.id), c, g.selfType);
    MarksOfPair(decl, lost, e, e.types(g.id), g.selfType);
    assert g.body == [decl] + [lost];
  }

  lemma LosesWithinIsReported(g: Node, x: string, xs: string, i: string, c: string, types: Table, w: World, at: Place)
    requires LosesWithin(g, x, xs, i, types, c) && Unannotated(w.notes)
    requires Rank(NameKind(x, w.types(g.id))) > Rank(NameKind(x, types))
    ensures Lint(Flat(g), w, at) != []
  {
    var decl, lost := g.body[0], g.body[1];
    var here := Inside(Flat(g), w, at);
    assert g.body == [decl] + [lost];
    FlatOfTwo(decl, lost);
    assert [Flat(decl), Flat(lost)] == [Flat(decl)] + [Flat(lost)];
    LintOfPair(Flat(decl), Flat(lost), w, here);
    LostIsReported(lost.id, x, w, here, types, c);
  }

  /** A function within a function declares x as a string, and lowering loses the declaration. Whatever the parser
      recorded of either, the lint reports on the concatenation `x - c(0)`, and nothing is relevant. */
  lemma NestedLossIsMissed(f: Node, g: Node, x: string, xs: string, i: string, c: string, t: Tables)
    requires f.Function? && f.body == [g] && g.Function? && LosesWithin(g, x, xs, i, t.e.types(g.id), c)
    requires x !in t.w.types(g.id) && x in t.e.types(g.id) && t.e.types(g.id)[x] == "str"
    requires KnownAsOther(c, t.e.infer) && Unannotated(t.w.notes)
    ensures Relevant([f], t.e, t.top) == {} && Hints([f], t) != []
  {
    LosesWithinIsUnmarked(g, x, xs, i, c, t.e, t.e.types(f.id), f.selfType);
    MarksAllOfOne(g, t.e, t.e.types(f.id), f.selfType);
    MarksAllOfOne(f, t.e, t.top, "");
    HintsOfOne(f, t);
    FlatOfOne(g);
    var at := Place(f.id, t.w.file(f.id), f.line, TypesOfTopLevel(f, t.w, t.recorded));
    LintAllOfOne(Flat(g), t.w, at);
    LosesWithinIsReported(g, x, xs, i, c, t.e.types(g.id), t.w, at);
  }
}

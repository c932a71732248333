/** Both ways in which the formatter deletes overflow annotations, taken together: those attached to a statement, and
    those that stand by themselves and speak for the statement after them. */
module OverflowFormat {
  import opened OverflowTree
  import opened OverflowLint
  import opened OverflowRelevance
  import opened OverflowTheorems
  import opened OverflowTables
  import opened OverflowGoverned
  import opened OverflowLists

  // ---------------------------------------------------------------------------------------
  // What free-standing annotations do

  /** An annotation that is still there speaks for the statement, in some block of the program. */
  ghost predicate SpokenFor(p: seq<Node>, live: nat -> bool, stmt: nat) {
    exists note :: IsSpeaker(p, live, note, stmt)
  }

  ghost predicate IsSpeaker(p: seq<Node>, live: nat -> bool, note: nat, stmt: nat) {
    live(note) && Speaks(HeldAll(p), note, stmt)
  }

  ghost function SpeakerOf(p: seq<Node>, live: nat -> bool, stmt: nat): (note: nat)
    requires SpokenFor(p, live, stmt)
    ensures IsSpeaker(p, live, note, stmt)
  {
    var note :| IsSpeaker(p, live, note, stmt);
    note
  }

  /** The annotations as the lint finds them: the parser writes the mode of an annotation that stands by itself into
      the statement that it speaks for. */
  ghost function Lined(p: seq<Node>, attached: Notes, modes: nat -> string, live: nat -> bool): Notes {
    Notes(attached.resolved, attached.raw,
          (id: nat) => if SpokenFor(p, live, id) then modes(SpeakerOf(p, live, id)) else attached.mode(id))
  }

  function Everything(): nat -> bool {
    (note: nat) => true
  }

  function WhatIsKept(p: seq<Node>, e: Scope, top: Table): nat -> bool {
    (note: nat) => OverflowLists.Kept(p, e, top, note)
  }

  /** Before formatting. */
  ghost function Before(p: seq<Node>, t: Tables, modes: nat -> string): Tables {
    Noted(t, Lined(p, t.w.notes, modes, Everything()))
  }

  /** After formatting: attached annotations stay on relevant statements, and the others stay if the map of the
      formatter leads to a relevant statement. */
  ghost function After(p: seq<Node>, t: Tables, modes: nat -> string): Tables {
    Noted(t, Lined(p, Formatted(t.w.notes, Relevant(p, t.e, t.top)), modes, WhatIsKept(p, t.e, t.top)))
  }

  // ---------------------------------------------------------------------------------------
  // When formatting is harmless

  /** Annotations that speak for relevant statements stand in lists that are scanned. */
  ghost predicate RelevantNotesAreScanned(p: seq<Node>, e: Scope, top: Table) {
    forall list: seq<Node>, i, j :: list in AllLists(p) && Governs(list, i, j) && list[j].id in Relevant(p, e, top) ==>
      list in Lists(p)
  }

  lemma PlacedIsScanned(p: seq<Node>, e: Scope, top: Table)
    requires Placed(p)
    ensures RelevantNotesAreScanned(p, e, top)
  {
    AllScannedIffPlaced(p);
    forall list | list in AllLists(p)
      ensures list in Lists(p)
    {
      assert list in multiset(AllLists(p));
    }
  }

  lemma SpeakerIsKept(p: seq<Node>, e: Scope, top: Table, note: nat, stmt: nat)
    requires DistinctIds(p) && RelevantNotesAreScanned(p, e, top)
    requires Speaks(HeldAll(p), note, stmt) && stmt in Relevant(p, e, top)
    ensures OverflowLists.Kept(p, e, top, note)
  {
    var lists := HeldAll(p);
    var u, i: nat, j: nat :| 0 <= u < |lists| && SpeaksIn(lists[u], i, j, note, stmt);
    assert lists[u] in AllLists(p);
    KeptIff(p, e, top, lists[u], i, j);
  }

  /** A statement is spoken for by one annotation at most. */
  lemma OneSpeaker(p: seq<Node>, a: nat, b: nat, stmt: nat)
    requires DistinctIds(p) && Speaks(HeldAll(p), a, stmt) && Speaks(HeldAll(p), b, stmt)
    ensures a == b
  {
    ListsAreApart(p);
    var lists := HeldAll(p);
    assert AllLists(p)[1..] == lists;
    var u, i: nat, j: nat :| 0 <= u < |lists| && SpeaksIn(lists[u], i, j, a, stmt);
    var v, k: nat, l: nat :| 0 <= v < |lists| && SpeaksIn(lists[v], k, l, b, stmt);
    OnePlace(lists, u, j, v, l);
    GovernsOne(lists[u], i, j, k, l);
  }

  lemma SameMode(p: seq<Node>, e: Scope, top: Table, attached: Notes, modes: nat -> string, id: nat)
    requires DistinctIds(p) && RelevantNotesAreScanned(p, e, top) && id in Relevant(p, e, top)
    ensures Lined(p, attached, modes, Everything()).mode(id)
         == Lined(p, Formatted(attached, Relevant(p, e, top)), modes, WhatIsKept(p, e, top)).mode(id)
  {
    var kept := WhatIsKept(p, e, top);
    if SpokenFor(p, Everything(), id) {
      var note := SpeakerOf(p, Everything(), id);
      SpeakerIsKept(p, e, top, note, id);
      assert IsSpeaker(p, kept, note, id);
      OneSpeaker(p, note, SpeakerOf(p, kept, id), id);
    } else if SpokenFor(p, kept, id) {
      assert IsSpeaker(p, Everything(), SpeakerOf(p, kept, id), id);
    }
  }

  lemma HarmlessWhateverNoted(p: seq<Node>, t: Tables, notes: Notes)
    requires HarmlessProgram(p, t)
    ensures HarmlessProgram(p, Noted(t, notes))
  {
    forall n | n in p && n.Function?
      ensures HarmlessTop(n, Noted(t, notes))
    {
      assert HarmlessTop(n, t);
    }
  }

  /** Formatting leaves the hints of a program as they were, in a tree of distinct statements, when the tables are
      harmless and the annotations that speak for relevant statements stand in scanned lists. */
  lemma FormattingIsHarmless(p: seq<Node>, t: Tables, modes: nat -> string)
    requires AllStatements(p) && HarmlessProgram(p, t)
    requires DistinctIds(p) && RelevantNotesAreScanned(p, t.e, t.top)
    ensures Hints(p, After(p, t, modes)) == Hints(p, Before(p, t, modes))
  {
    var relevant := Relevant(p, t.e, t.top);
    var a, b := Before(p, t, modes).w.notes, After(p, t, modes).w.notes;
    forall id | id in relevant
      ensures a.resolved(id) == b.resolved(id) && a.raw(id) == b.raw(id) && a.mode(id) == b.mode(id)
    {
      SameMode(p, t.e, t.top, t.w.notes, modes, id);
    }
    HarmlessWhateverNoted(p, t, a);
    OnlyRelevantAnnotationsMatter(p, Noted(t, a), b);
  }

  /** So it does in a program whose ifs and matches are all placed. */
  lemma PlacedIsHarmless(p: seq<Node>, t: Tables, modes: nat -> string)
    requires AllStatements(p) && HarmlessProgram(p, t) && DistinctIds(p) && Placed(p)
    ensures Hints(p, After(p, t, modes)) == Hints(p, Before(p, t, modes))
  {
    PlacedIsScanned(p, t.e, t.top);
    FormattingIsHarmless(p, t, modes);
  }

  // ---------------------------------------------------------------------------------------
  // Where it is not

  lemma LintOfWrapped(n: Node, kid: Node, w: World, at: Place)
    requires Kids(n) == [kid] && !n.Infix? && !Skips(n, w.notes, at.types)
    ensures Lint(n, w, at) == Lint(kid, w, Inside(n, w, at))
  {
    LintAllOfOne(kid, w, Inside(n, w, at));
  }

  lemma LintOfTwo(n: Node, l: Node, r: Node, w: World, at: Place)
    requires Kids(n) == [l] + [r] && !n.Infix? && !IsStatement(n) && !n.Dot?
    ensures Lint(n, w, at) == Lint(l, w, at) + Lint(r, w, at)
  {
    LintOfPair(l, r, w, at);
  }

  lemma LintOfField(n: Node, w: World, at: Place)
    requires n.Dot?
    ensures Lint(n, w, at) == []
  {
  }

  lemma LintOfSum(n: Node, w: World, at: Place)
    requires n.Infix? && n.op == "+" && n.left.Dot? && n.right.IntegerLiteral?
    ensures Lint(n, w, at) != []
  {
    assert OverflowLint.Own(n, at) != [];
  }

  /** `.len = .len + 1`, or the like. */
  predicate AddsToField(stmt: Node) {
    && stmt.ExpressionStatement? && stmt.value.Assign? && stmt.value.left.Dot?
    && stmt.value.value.Infix? && stmt.value.value.op == "+"
    && stmt.value.value.left.Dot? && stmt.value.value.right.IntegerLiteral?
  }

  /** It gets a hint, unless it is annotated. */
  lemma LintOfInner(stmt: Node, w: World, at: Place)
    requires AddsToField(stmt)
    ensures Lint(stmt, w, at) == [] <==> Annotated(stmt, w.notes)
  {
    if !Annotated(stmt, w.notes) {
      var here := Inside(stmt, w, at);
      LintOfWrapped(stmt, stmt.value, w, at);
      LintOfTwo(stmt.value, stmt.value.left, stmt.value.value, w, here);
      LintOfSum(stmt.value.value, w, here);
    }
  }

  lemma LintOfArm(arm: Node, w: World, at: Place)
    requires arm.Arm? && arm.cond.Missing? && arm.patterns == [] && |arm.body| == 2
    requires arm.body[0].Annotation?
    ensures Lint(arm, w, at) == Lint(arm.body[1], w, at)
  {
    var note, stmt := arm.body[0], arm.body[1];
    assert Kids(arm) == [arm.cond] + ([note] + [stmt]);
    LintOfConcat([arm.cond], [note] + [stmt], w, at);
    LintAllOfOne(arm.cond, w, at);
    LintOfPair(note, stmt, w, at);
    assert Lint(arm.cond, w, at) == [] && Lint(note, w, at) == [];
  }

  /** A statement that assigns to a field what a match with this arm gives. */
  predicate AssignsArm(stmt: Node, arm: Node) {
    && stmt.ExpressionStatement? && stmt.value.Assign? && stmt.value.left.Dot? && stmt.value.value.Match?
    && stmt.value.value.matched.Identifier? && stmt.value.value.arms == [arm]
  }

  lemma LintOfAssigned(stmt: Node, arm: Node, w: World, at: Place)
    requires AssignsArm(stmt, arm) && !Annotated(stmt, w.notes)
    ensures Lint(stmt, w, at) == Lint(arm, w, Inside(stmt, w, at))
  {
    var m, here := stmt.value.value, Inside(stmt, w, at);
    LintOfWrapped(stmt, stmt.value, w, at);
    LintOfTwo(stmt.value, stmt.value.left, m, w, here);
    LintOfField(stmt.value.left, w, here);
    LintOfTwo(m, m.matched, arm, w, here);
    LintOfName(m.matched, w, here);
  }

  lemma LintOfName(n: Node, w: World, at: Place)
    requires n.Identifier?
    ensures Lint(n, w, at) == []
  {
  }

  lemma FieldIsFlat(n: Node)
    requires n.Dot? && n.receiver.Identifier?
    ensures Flat(n) == n
  {
  }

  lemma InnerIsFlat(stmt: Node)
    requires AddsToField(stmt) && stmt.value.left.receiver.Identifier? && stmt.value.value.left.receiver.Identifier?
    ensures Flat(stmt) == stmt
  {
    FieldIsFlat(stmt.value.left);
    FieldIsFlat(stmt.value.value.left);
    assert Flat(stmt.value.value) == stmt.value.value;
  }

  lemma ArmIsFlat(arm: Node)
    requires arm.Arm? && arm.cond.Missing? && arm.patterns == [] && |arm.body| == 2 && arm.body[0].Annotation?
    requires Flat(arm.body[1]) == arm.body[1]
    ensures Flat(arm) == arm
  {
    FlatOfTwo(arm.body[0], arm.body[1]);
    assert arm.body == [arm.body[0], arm.body[1]];
  }

  lemma AssignedIsFlat(stmt: Node, arm: Node)
    requires AssignsArm(stmt, arm) && stmt.value.left.receiver.Identifier? && Flat(arm) == arm
    ensures Flat(stmt) == stmt
  {
    FieldIsFlat(stmt.value.left);
    FlatOfOne(arm);
    assert Flat(stmt.value.value) == stmt.value.value;
  }

  lemma GrowthIsFlat(id: nat)
    ensures Flat(GrowthMethod(id)) == GrowthMethod(id)
  {
    var f, arm := GrowthMethod(id), GrowthArm(id);
    InnerIsFlat(arm.body[1]);
    ArmIsFlat(arm);
    AssignedIsFlat(f.body[0], arm);
    FlatOfOne(f.body[0]);
  }

  /** The method has a hint just when the statement in the arm is not annotated. */
  lemma HintsOfGrowth(id: nat, t: Tables)
    requires t.w.notes.mode(id) == "" && !Annotated(GrowthMethod(id).body[0], t.w.notes)
    ensures Hints([GrowthMethod(id)], t) == [] <==> Annotated(Growth(id)[1], t.w.notes)
  {
    var f, arm := GrowthMethod(id), GrowthArm(id);
    GrowthIsFlat(id);
    HintsOfOne(f, t);
    var at := Place(id, t.w.file(id), f.line, TypesOfTopLevel(f, t.w, t.recorded));
    LintAllOfOne(f.body[0], t.w, at);
    LintOfAssigned(f.body[0], arm, t.w, at);
    LintOfArm(arm, t.w, Inside(f.body[0], t.w, at));
    LintOfInner(arm.body[1], t.w, Inside(f.body[0], t.w, at));
  }

  lemma BareOfPair(l: Node, r: Node)
    ensures BareAll([l] + [r]) == (Bare(l) && Bare(r))
  {
    assert ([l] + [r])[1..] == [r] && [r][1..] == [];
    assert BareAll([r]) == Bare(r);
  }

  lemma BareOfOne(n: Node)
    ensures BareAll([n]) == Bare(n)
  {
    assert [n][1..] == [];
  }

  lemma FieldIsBare(n: Node)
    requires n.Dot? && n.receiver.Identifier?
    ensures Bare(n)
  {
    BareOfOne(n.receiver);
  }

  lemma SumIsBare(n: Node)
    requires n.Infix? && n.left.Dot? && n.left.receiver.Identifier? && n.right.IntegerLiteral?
    ensures Bare(n)
  {
    FieldIsBare(n.left);
    BareOfPair(n.left, n.right);
  }

  lemma InnerIsBare(stmt: Node)
    requires AddsToField(stmt) && stmt.value.left.receiver.Identifier? && stmt.value.value.left.receiver.Identifier?
    ensures Bare(stmt)
  {
    FieldIsBare(stmt.value.left);
    SumIsBare(stmt.value.value);
    BareOfPair(stmt.value.left, stmt.value.value);
    BareOfOne(stmt.value);
  }

  /** The blocks of the method: its body, and that of the arm. */
  lemma BlocksOfGrowth(id: nat, list: seq<Node>)
    requires list in HeldAll([GrowthMethod(id)])
    ensures list == GrowthMethod(id).body || list == Growth(id)
  {
    var f, arm := GrowthMethod(id), GrowthArm(id);
    InnerIsBare(arm.body[1]);
    if list != f.body {
      InBody(f, f.body[0], list);
      HeldByAssigned(f.body[0], arm);
      HeldByArm(arm, list);
    }
  }

  lemma InBody(f: Node, stmt: Node, list: seq<Node>)
    requires f.Function? && f.body == [stmt] && list in HeldAll([f]) && list != f.body
    ensures list in Held(stmt)
  {
    HeldOfOne(f);
    HeldOfOne(stmt);
  }

  lemma HeldByAssigned(stmt: Node, arm: Node)
    requires AssignsArm(stmt, arm) && stmt.value.left.receiver.Identifier?
    ensures Held(stmt) == Held(arm)
  {
    var m, field := stmt.value.value, stmt.value.left;
    assert Children(stmt) == [stmt.value];
    HeldOfOne(stmt.value);
    assert Children(stmt.value) == [field] + [m];
    HeldOfHead(field, [m]);
    HeldOfOne(m);
    assert Children(m) == [m.matched] + [arm];
    HeldOfHead(m.matched, [arm]);
    HeldOfOne(arm);
    HeldOfOne(field.receiver);
    assert Held(field) == [] && Held(m.matched) == [];
  }

  lemma HeldByArm(arm: Node, list: seq<Node>)
    requires arm.Arm? && arm.cond.Missing? && arm.patterns == [] && |arm.body| == 2 && arm.body[0].Annotation?
    requires Bare(arm.body[1]) && list in Held(arm)
    ensures list == arm.body
  {
    HeldOfHead(arm.body[0], [arm.body[1]]);
    HeldOfOne(arm.body[1]);
    assert arm.body == [arm.body[0]] + [arm.body[1]];
    BareIff(arm.body[0]);
    BareIff(arm.body[1]);
  }

  lemma SpeakersOfGrowth(id: nat, note: nat, stmt: nat)
    ensures Speaks(HeldAll([GrowthMethod(id)]), note, stmt) <==> note == id + 2 && stmt == id + 3
  {
    var lists := HeldAll([GrowthMethod(id)]);
    HeldInAssignment(GrowthMethod(id), GrowthArm(id));
    assert Growth(id) in lists;
    var u :| 0 <= u < |lists| && lists[u] == Growth(id);
    assert SpeaksIn(lists[u], 0, 1, id + 2, id + 3);
    if Speaks(lists, note, stmt) {
      var v, i: nat, j: nat :| 0 <= v < |lists| && SpeaksIn(lists[v], i, j, note, stmt);
      BlocksOfGrowth(id, lists[v]);
    }
  }

  lemma BeforeGrowth(id: nat, t: Tables, modes: nat -> string)
    requires Unannotated(t.w.notes) && modes(id + 2) != ""
    ensures Hints([GrowthMethod(id)], Before([GrowthMethod(id)], t, modes)) == []
  {
    var p := [GrowthMethod(id)];
    var u := Before(p, t, modes);
    SpeakersOfGrowth(id, id + 2, id + 3);
    assert IsSpeaker(p, Everything(), id + 2, id + 3);
    SpeakersOfGrowth(id, SpeakerOf(p, Everything(), id + 3), id + 3);
    NotSpokenFor(id, Everything(), id);
    NotSpokenFor(id, Everything(), id + 1);
    HintsOfGrowth(id, u);
  }

  lemma NotSpokenFor(id: nat, live: nat -> bool, stmt: nat)
    requires stmt != id + 3 || !live(id + 2)
    ensures !SpokenFor([GrowthMethod(id)], live, stmt)
  {
    if SpokenFor([GrowthMethod(id)], live, stmt) {
      SpeakersOfGrowth(id, SpeakerOf([GrowthMethod(id)], live, stmt), stmt);
    }
  }

  lemma AfterGrowth(id: nat, t: Tables, modes: nat -> string)
    requires Unannotated(t.w.notes)
    ensures Hints([GrowthMethod(id)], After([GrowthMethod(id)], t, modes)) != []
  {
    var p := [GrowthMethod(id)];
    var live := WhatIsKept(p, t.e, t.top);
    GrowthIsMissed(t.e, t.top, id);
    forall stmt
      ensures !SpokenFor(p, live, stmt)
    {
      NotSpokenFor(id, live, stmt);
    }
    HintsOfGrowth(id, After(p, t, modes));
  }

  /** Formatting the method gives it a hint that it did not have, under all tables. */
  lemma GrowthIsReported(id: nat, t: Tables, modes: nat -> string)
    requires Unannotated(t.w.notes) && modes(id + 2) != ""
    ensures Hints([GrowthMethod(id)], Before([GrowthMethod(id)], t, modes)) == []
    ensures Hints([GrowthMethod(id)], After([GrowthMethod(id)], t, modes)) != []
  {
    BeforeGrowth(id, t, modes);
    AfterGrowth(id, t, modes);
  }
}

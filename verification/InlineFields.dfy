/** The check of `#{inline}` annotations on struct fields: an inlined struct is stored inside its
    host, so the fields stored by value must not lead back to where they start. */
module InlineFields {
  import opened Sequences
  import opened Wrappers

  // ---------------------------------------------------------------------------------------
  // Declarations

  /** The annotation on a field: none, one without a boolean value, or one with. */
  datatype Inline = Absent | NotBoolean | Value(b: bool)

  datatype Field = Field(name: string, inline: Inline, raw: string)

  /** A field slot may be empty. */
  datatype Struct = Struct(name: string, fields: seq<Option<Field>>)

  datatype Statement = StructStmt(def: Struct) | EnumStmt(name: string, inline: Inline) | OtherStmt

  datatype Diagnostic =
    | FieldNotBoolean(host: string, field: string)
    | FieldNotStruct(host: string, field: string, raw: string)
    | EnumNotBoolean(name: string)
    | Cycle(path: seq<string>)

  /** The spelling could name a struct: everything that is not positively ruled out. */
  predicate CanBeStructType(raw: string)
  {
    && raw != ""
    && raw !in {"i8", "i16", "i32", "i64", "i128", "u8", "u16", "u32", "u64", "u128",
                "f32", "f64", "bool", "byte", "char", "int", "str", "vec", "txt"}
    && raw[0] !in {'[', '*', '&', '?', '%'}
  }

  predicate Embeds(f: Option<Field>)
  {
    f.Some? && f.value.inline == Value(true) && CanBeStructType(f.value.raw)
  }

  /** The types that these fields store by value, in order. */
  function Targets(fields: seq<Option<Field>>): (ts: seq<string>)
  {
    if fields == [] then []
    else (if Embeds(fields[0]) then [fields[0].value.raw] else []) + Targets(fields[1..])
  }

  /** The types that a struct of this name stores by value, over all its definitions. */
  function EdgesOf(structs: seq<Struct>, name: string): seq<string>
  {
    if structs == [] then []
    else (if structs[0].name == name then Targets(structs[0].fields) else []) + EdgesOf(structs[1..], name)
  }

  function Known(structs: seq<Struct>): set<string>
  {
    set i | 0 <= i < |structs| :: structs[i].name
  }

  function Structs(program: seq<Statement>): seq<Struct>
  {
    if program == [] then []
    else (if program[0].StructStmt? then [program[0].def] else []) + Structs(program[1..])
  }

  function FieldDiagnostic(host: string, slot: Option<Field>): seq<Diagnostic>
  {
    if slot.None? || slot.value.inline == Absent then []
    else if slot.value.inline == NotBoolean then [FieldNotBoolean(host, slot.value.name)]
    else if slot.value.raw != "" && !CanBeStructType(slot.value.raw)
    then [FieldNotStruct(host, slot.value.name, slot.value.raw)]
    else []
  }

  function FieldDiagnostics(host: string, fields: seq<Option<Field>>): seq<Diagnostic>
  {
    if fields == [] then [] else FieldDiagnostic(host, fields[0]) + FieldDiagnostics(host, fields[1..])
  }

  /** One field further along. */
  lemma NextField(ts: seq<string>, ds: seq<Diagnostic>, host: string, fields: seq<Option<Field>>, j: nat)
    requires j < |fields|
    ensures ts + Targets(fields[j..])
         == ts + (if Embeds(fields[j]) then [fields[j].value.raw] else []) + Targets(fields[j + 1..])
    ensures ds + FieldDiagnostics(host, fields[j..])
         == ds + FieldDiagnostic(host, fields[j]) + FieldDiagnostics(host, fields[j + 1..])
  {
    assert fields[j..][1..] == fields[j + 1..];
  }

  lemma NextStruct(ds: seq<Diagnostic>, structs: seq<Struct>, i: nat)
    requires i < |structs|
    ensures ds + StructDiagnostics(structs[i..])
         == ds + FieldDiagnostics(structs[i].name, structs[i].fields) + StructDiagnostics(structs[i + 1..])
  {
    assert structs[i..][1..] == structs[i + 1..];
  }

  lemma NextEdges(ts: seq<string>, structs: seq<Struct>, i: nat, n: string)
    requires i < |structs|
    ensures ts + EdgesOf(structs[i..], n)
         == ts + (if structs[i].name == n then Targets(structs[i].fields) else []) + EdgesOf(structs[i + 1..], n)
  {
    assert structs[i..][1..] == structs[i + 1..];
  }

  function StructDiagnostics(structs: seq<Struct>): seq<Diagnostic>
  {
    if structs == [] then []
    else FieldDiagnostics(structs[0].name, structs[0].fields) + StructDiagnostics(structs[1..])
  }

  function EnumDiagnostic(stmt: Statement): seq<Diagnostic>
  {
    if stmt.EnumStmt? && stmt.inline == NotBoolean then [EnumNotBoolean(stmt.name)] else []
  }

  function EnumDiagnostics(program: seq<Statement>): seq<Diagnostic>
  {
    if program == [] then [] else EnumDiagnostic(program[0]) + EnumDiagnostics(program[1..])
  }

  function Ordinary(program: seq<Statement>): seq<Diagnostic>
  {
    StructDiagnostics(Structs(program)) + EnumDiagnostics(program)
  }

  // ---------------------------------------------------------------------------------------
  // The graph of embeddings between known structs

  /** The spelling rules a struct out: it is empty, one of nineteen names, or begins with one of five marks. */
  predicate RulesOutStruct(raw: string)
  {
    || raw == ""
    || raw == "i8" || raw == "i16" || raw == "i32" || raw == "i64" || raw == "i128"
    || raw == "u8" || raw == "u16" || raw == "u32" || raw == "u64" || raw == "u128"
    || raw == "f32" || raw == "f64" || raw == "bool" || raw == "byte" || raw == "char" || raw == "int"
    || raw == "str" || raw == "vec" || raw == "txt"
    || raw[0] == '[' || raw[0] == '*' || raw[0] == '&' || raw[0] == '?' || raw[0] == '%'
  }

  lemma RulesOutIff(raw: string)
    ensures CanBeStructType(raw) <==> !RulesOutStruct(raw)
  {
  }

  /** The slot holds a field that is annotated to be stored by value, and spelled b. */
  predicate IsInline(slot: Option<Field>, b: string)
  {
    slot.Some? && slot.value.inline == Value(true) && slot.value.raw == b
  }

  ghost predicate HasInline(sd: Struct, b: string)
  {
    exists j :: 0 <= j < |sd.fields| && IsInline(sd.fields[j], b)
  }

  ghost predicate IsStruct(structs: seq<Struct>, n: string)
  {
    exists i :: 0 <= i < |structs| && structs[i].name == n
  }

  /** Both are structs, and some definition of a has a field spelled b that is stored by value. */
  ghost predicate Edge(structs: seq<Struct>, a: string, b: string)
  {
    && IsStruct(structs, a) && IsStruct(structs, b) && !RulesOutStruct(b)
    && exists i :: 0 <= i < |structs| && structs[i].name == a && HasInline(structs[i], b)
  }

  lemma {:induction false} TargetIff(fields: seq<Option<Field>>, b: string)
    ensures b in Targets(fields) <==>
            !RulesOutStruct(b) && exists j :: 0 <= j < |fields| && IsInline(fields[j], b)
  {
    RulesOutIff(b);
    if fields != [] {
      var rest := fields[1..];
      TargetIff(rest, b);
      assert forall j :: 0 < j < |fields| ==> fields[j] == rest[j - 1];
      if j :| 0 <= j < |rest| && IsInline(rest[j], b) {
        assert IsInline(fields[j + 1], b);
      }
    }
  }

  lemma {:induction false} TargetOfSomeIff(structs: seq<Struct>, a: string, b: string)
    ensures b in EdgesOf(structs, a) <==>
            exists i :: 0 <= i < |structs| && structs[i].name == a && b in Targets(structs[i].fields)
  {
    if structs != [] {
      var rest := structs[1..];
      TargetOfSomeIff(rest, a, b);
      assert forall i :: 0 < i < |structs| ==> structs[i] == rest[i - 1];
      if i :| 0 <= i < |rest| && rest[i].name == a && b in Targets(rest[i].fields) {
        assert structs[i + 1].name == a && b in Targets(structs[i + 1].fields);
      }
    }
  }

  /** The edges that the check collects are exactly those. */
  lemma EdgeIff(structs: seq<Struct>, a: string, b: string)
    ensures Edge(structs, a, b) <==> a in Known(structs) && b in Known(structs) && b in EdgesOf(structs, a)
  {
    TargetOfSomeIff(structs, a, b);
    forall i | 0 <= i < |structs|
      ensures b in Targets(structs[i].fields) <==> !RulesOutStruct(b) && HasInline(structs[i], b)
    {
      TargetIff(structs[i].fields, b);
    }
  }

  ghost predicate Chain(structs: seq<Struct>, path: seq<string>)
  {
    forall i :: 0 <= i < |path| - 1 ==> Edge(structs, path[i], path[i + 1])
  }

  /** A walk along edges that comes back to its start. */
  ghost predicate Closed(structs: seq<Struct>, path: seq<string>)
  {
    |path| > 1 && Chain(structs, path) && path[0] == path[|path| - 1]
  }

  ghost predicate HasCycle(structs: seq<Struct>)
  {
    exists path :: Closed(structs, path)
  }

  /** A reported path follows edges and ends at a node already on it. */
  ghost predicate Reported(structs: seq<Struct>, path: seq<string>)
  {
    |path| > 1 && Chain(structs, path) && exists i :: 0 <= i < |path| - 1 && path[i] == path[|path| - 1]
  }

  /** Every edge leads to a smaller rank. */
  ghost predicate Ranked(structs: seq<Struct>, rank: map<string, nat>)
  {
    && (forall n :: n in Known(structs) ==> n in rank)
    && forall a, b :: Edge(structs, a, b) ==> rank[b] < rank[a]
  }

  /** Every known struct has a finite size: one unit of its own and the sizes of the known
      structs it stores by value. */
  ghost predicate Layout(structs: seq<Struct>, size: map<string, nat>)
  {
    && (forall n :: n in Known(structs) ==> n in size)
    && forall n :: n in Known(structs) ==> size[n] == 1 + Total(structs, EdgesOf(structs, n), size)
  }

  ghost function Total(structs: seq<Struct>, targets: seq<string>, size: map<string, nat>): nat
    requires forall n :: n in Known(structs) ==> n in size
  {
    if targets == [] then 0
    else (if targets[0] in Known(structs) then size[targets[0]] else 0) + Total(structs, targets[1..], size)
  }

  lemma ReportedIsCycle(structs: seq<Struct>, path: seq<string>)
    requires Reported(structs, path)
    ensures HasCycle(structs)
  {
    var i :| 0 <= i < |path| - 1 && path[i] == path[|path| - 1];
    var p := path[i..];
    forall j | 0 <= j < |p| - 1
      ensures Edge(structs, p[j], p[j + 1])
    {
      assert Edge(structs, path[i + j], path[i + j + 1]);
    }
    assert Closed(structs, p);
  }

  lemma {:induction false} ChainDescends(structs: seq<Struct>, rank: map<string, nat>, path: seq<string>, i: nat)
    requires Ranked(structs, rank) && Chain(structs, path) && 0 < i < |path|
    ensures path[0] in rank && path[i] in rank && rank[path[i]] < rank[path[0]]
  {
    assert Edge(structs, path[i - 1], path[i]);
    if i > 1 {
      ChainDescends(structs, rank, path, i - 1);
    }
  }

  lemma RankedIsAcyclic(structs: seq<Struct>, rank: map<string, nat>)
    requires Ranked(structs, rank)
    ensures !HasCycle(structs)
  {
    if HasCycle(structs) {
      var path :| Closed(structs, path);
      ChainDescends(structs, rank, path, |path| - 1);
    }
  }

  lemma {:induction false} TotalCovers(structs: seq<Struct>, targets: seq<string>, size: map<string, nat>, b: string)
    requires forall n :: n in Known(structs) ==> n in size
    requires b in targets && b in Known(structs)
    ensures size[b] <= Total(structs, targets, size)
  {
    if targets[0] != b {
      TotalCovers(structs, targets[1..], size, b);
    }
  }

  lemma LayoutIsRank(structs: seq<Struct>, size: map<string, nat>)
    requires Layout(structs, size)
    ensures Ranked(structs, size)
  {
    forall a, b | Edge(structs, a, b)
      ensures size[b] < size[a]
    {
      EdgeIff(structs, a, b);
      TotalCovers(structs, EdgesOf(structs, a), size, b);
    }
  }

  /** The size of a struct, by recursion along its embedded fields: the rank makes it end. */
  ghost function SizeOf(structs: seq<Struct>, rank: map<string, nat>, n: string): nat
    requires Ranked(structs, rank) && n in Known(structs)
    decreases rank[n], |EdgesOf(structs, n)| + 1
  {
    1 + SizeOfAll(structs, rank, n, EdgesOf(structs, n))
  }

  ghost function SizeOfAll(structs: seq<Struct>, rank: map<string, nat>, n: string, targets: seq<string>): nat
    requires Ranked(structs, rank) && n in Known(structs)
    requires forall t :: t in targets ==> t in EdgesOf(structs, n)
    decreases rank[n], |targets|
  {
    if targets == [] then 0
    else
      EdgeIff(structs, n, targets[0]);
      (if targets[0] in Known(structs) then SizeOf(structs, rank, targets[0]) else 0)
      + SizeOfAll(structs, rank, n, targets[1..])
  }

  lemma {:induction false} SizeOfAllTotals(structs: seq<Struct>, rank: map<string, nat>, n: string,
                                           targets: seq<string>, size: map<string, nat>)
    requires Ranked(structs, rank) && n in Known(structs)
    requires forall t :: t in targets ==> t in EdgesOf(structs, n)
    requires forall m :: m in Known(structs) ==> m in size && size[m] == SizeOf(structs, rank, m)
    ensures SizeOfAll(structs, rank, n, targets) == Total(structs, targets, size)
  {
    if targets != [] {
      SizeOfAllTotals(structs, rank, n, targets[1..], size);
    }
  }

  /** Every struct has a finite size if and only if no embedding leads back to its start. */
  lemma FiniteIffRanked(structs: seq<Struct>)
    ensures (exists size :: Layout(structs, size)) <==> (exists rank :: Ranked(structs, rank))
  {
    if rank :| Ranked(structs, rank) {
      var size := map n | n in Known(structs) :: SizeOf(structs, rank, n);
      forall n | n in Known(structs)
        ensures size[n] == 1 + Total(structs, EdgesOf(structs, n), size)
      {
        SizeOfAllTotals(structs, rank, n, EdgesOf(structs, n), size);
      }
      assert Layout(structs, size);
    }
    if size :| Layout(structs, size) {
      LayoutIsRank(structs, size);
    }
  }

  // ---------------------------------------------------------------------------------------
  // Which diagnostics there are

  /** The field in this slot is annotated in a way that makes no sense, and d says so. */
  predicate IsMisused(host: string, slot: Option<Field>, d: Diagnostic)
  {
    && slot.Some?
    && match slot.value.inline
       case Absent => false
       case NotBoolean => d == FieldNotBoolean(host, slot.value.name)
       case Value(_) =>
         slot.value.raw != "" && RulesOutStruct(slot.value.raw)
             && d == FieldNotStruct(host, slot.value.name, slot.value.raw)
  }

  ghost predicate MisusesField(sd: Struct, d: Diagnostic)
  {
    exists j :: 0 <= j < |sd.fields| && IsMisused(sd.name, sd.fields[j], d)
  }

  /** A struct or an enum of the program is annotated in a way that makes no sense, and d says so. */
  ghost predicate Misuses(program: seq<Statement>, d: Diagnostic)
  {
    exists k :: 0 <= k < |program| && StatementMisuses(program[k], d)
  }

  ghost predicate StatementMisuses(stmt: Statement, d: Diagnostic)
  {
    match stmt
    case StructStmt(def) => MisusesField(def, d)
    case EnumStmt(name, inline) => inline == NotBoolean && d == EnumNotBoolean(name)
    case OtherStmt => false
  }

  lemma {:induction false} FieldDiagnosticsIff(host: string, fields: seq<Option<Field>>, d: Diagnostic)
    ensures d in FieldDiagnostics(host, fields) <==> exists j :: 0 <= j < |fields| && IsMisused(host, fields[j], d)
  {
    if fields != [] {
      var rest := fields[1..];
      FieldDiagnosticsIff(host, rest, d);
      FieldDiagnosticIff(host, fields[0], d);
      assert forall j :: 0 < j < |fields| ==> fields[j] == rest[j - 1];
      if j :| 0 <= j < |rest| && IsMisused(host, rest[j], d) {
        assert IsMisused(host, fields[j + 1], d);
      }
    }
  }

  /** What the check makes of a field. */
  lemma FieldIs(host: string, slot: Option<Field>)
    ensures forall b :: IsInline(slot, b) && !RulesOutStruct(b) <==> Embeds(slot) && b == slot.value.raw
    ensures forall d :: IsMisused(host, slot, d) <==> FieldDiagnostic(host, slot) == [d]
    ensures |FieldDiagnostic(host, slot)| <= 1
  {
    if slot.Some? {
      RulesOutIff(slot.value.raw);
    }
  }

  lemma FieldDiagnosticIff(host: string, slot: Option<Field>, d: Diagnostic)
    ensures d in FieldDiagnostic(host, slot) <==> IsMisused(host, slot, d)
  {
    if slot.Some? {
      RulesOutIff(slot.value.raw);
    }
  }

  /** What the structs and the enums of the first statement and of the others give. */
  lemma OrdinaryOfHead(program: seq<Statement>, d: Diagnostic)
    requires program != []
    ensures d in Ordinary(program) <==> StatementMisuses(program[0], d) || d in Ordinary(program[1..])
  {
    var structs := Structs(program[1..]);
    if program[0].StructStmt? {
      var def := program[0].def;
      FieldDiagnosticsIff(def.name, def.fields, d);
      assert Structs(program) == [def] + structs && ([def] + structs)[1..] == structs;
      assert StructDiagnostics([def] + structs)
          == FieldDiagnostics(def.name, def.fields) + StructDiagnostics(structs);
    } else {
      assert Structs(program) == structs;
    }
  }

  /** The diagnostics other than that of a cycle are exactly the annotations that make no sense. */
  lemma {:induction false} OrdinaryIff(program: seq<Statement>, d: Diagnostic)
    ensures d in Ordinary(program) <==> Misuses(program, d)
  {
    if program != [] {
      var rest := program[1..];
      OrdinaryIff(rest, d);
      OrdinaryOfHead(program, d);
      assert forall k :: 0 < k < |program| ==> program[k] == rest[k - 1];
      if k :| 0 <= k < |rest| && StatementMisuses(rest[k], d) {
        assert StatementMisuses(program[k + 1], d);
      }
    }
  }

  /** A struct of the program has a field of its own type that is stored by value. */
  ghost predicate InlinesItself(program: seq<Statement>)
  {
    exists k :: 0 <= k < |program| && program[k].StructStmt? && HasInline(program[k].def, program[k].def.name)
      && !RulesOutStruct(program[k].def.name)
  }

  lemma {:induction false} StructOf(program: seq<Statement>, k: nat) returns (i: nat)
    requires k < |program| && program[k].StructStmt?
    ensures i < |Structs(program)| && Structs(program)[i] == program[k].def
  {
    if k == 0 {
      i := 0;
    } else {
      i := StructOf(program[1..], k - 1);
      if program[0].StructStmt? {
        i := i + 1;
      }
    }
  }

  lemma SelfInlineIsCycle(program: seq<Statement>)
    requires InlinesItself(program)
    ensures HasCycle(Structs(program))
  {
    var k :| 0 <= k < |program| && program[k].StructStmt? && HasInline(program[k].def, program[k].def.name)
      && !RulesOutStruct(program[k].def.name);
    var structs, n := Structs(program), program[k].def.name;
    var i := StructOf(program, k);
    assert structs[i].name == n && HasInline(structs[i], n);
    assert Edge(structs, n, n);
    assert Closed(structs, [n, n]);
  }

  ghost predicate CycleReported(results: seq<Diagnostic>)
  {
    exists path :: Cycle(path) in results
  }

  // ---------------------------------------------------------------------------------------
  // The walk

  datatype State = Unvisited | OnStack | Done

  type States = map<string, State>

  function StateOf(state: States, name: string): State
  {
    if name in state then state[name] else Unvisited
  }

  /** The names on the stack are those of the path, a chain; the finished ones are those marked
      done, and all their edges lead to names that finished before them. */
  ghost predicate Walking(structs: seq<Struct>, state: States, finished: seq<string>, path: seq<string>)
  {
    && Chain(structs, path)
    && (forall n :: StateOf(state, n) == OnStack <==> n in path)
    && (forall n :: StateOf(state, n) == Done <==> n in finished)
    && (forall n :: n in path ==> n in Known(structs))
    && Topological(structs, finished)
  }

  ghost predicate Topological(structs: seq<Struct>, finished: seq<string>)
  {
    forall i, b :: 0 <= i < |finished| && Edge(structs, finished[i], b) ==> b in finished[..i]
  }

  lemma Push(structs: seq<Struct>, state: States, finished: seq<string>, above: seq<string>, name: string)
    requires Walking(structs, state, finished, above)
    requires name in Known(structs) && StateOf(state, name) == Unvisited
    requires above != [] ==> Edge(structs, above[|above| - 1], name)
    ensures Walking(structs, state[name := OnStack], finished, above + [name])
  {
    var path := above + [name];
    forall i | 0 <= i < |path| - 1
      ensures Edge(structs, path[i], path[i + 1])
    {
      assert i < |above| - 1 ==> Edge(structs, above[i], above[i + 1]);
    }
  }

  lemma Pop(structs: seq<Struct>, state: States, finished: seq<string>, above: seq<string>, name: string)
    requires Walking(structs, state, finished, above + [name])
    requires name !in above && name !in finished
    requires forall b :: Edge(structs, name, b) ==> b in finished
    ensures Walking(structs, state[name := Done], finished + [name], above)
  {
    var path, finished' := above + [name], finished + [name];
    assert forall n :: n in path <==> n in above || n == name;
    assert forall n :: n in finished' <==> n in finished || n == name;
    forall i | 0 <= i < |above| - 1
      ensures Edge(structs, above[i], above[i + 1])
    {
      assert Edge(structs, path[i], path[i + 1]);
    }
    forall i, b | 0 <= i < |finished'| && Edge(structs, finished'[i], b)
      ensures b in finished'[..i]
    {
      if i < |finished| {
        assert finished'[..i] == finished[..i];
      } else {
        assert finished'[..i] == finished;
      }
    }
  }

  lemma ReportOf(structs: seq<Struct>, path: seq<string>, next: string)
    requires Chain(structs, path) && path != [] && Edge(structs, path[|path| - 1], next) && next in path
    ensures Reported(structs, path + [next])
  {
    var i :| 0 <= i < |path| && path[i] == next;
    var p := path + [next];
    assert p[i] == p[|p| - 1];
    forall j | 0 <= j < |p| - 1
      ensures Edge(structs, p[j], p[j + 1])
    {
      assert j < |path| - 1 ==> Edge(structs, path[j], path[j + 1]);
    }
  }

  /** The place at which a name finished ranks it. */
  lemma FinishedIsRank(structs: seq<Struct>, finished: seq<string>) returns (rank: map<string, nat>)
    requires Topological(structs, finished)
    requires forall n :: n in Known(structs) ==> n in finished
    ensures Ranked(structs, rank)
  {
    rank := map n | n in finished :: First(finished, n);
    forall a, b | Edge(structs, a, b)
      ensures rank[b] < rank[a]
    {
      var i := First(finished, a);
      assert finished[i] == a;
      var j :| 0 <= j < i && finished[j] == b;
    }
  }

  class FieldTagCheck {
    var results: seq<Diagnostic>
    var inlineEdges: map<string, seq<string>>
    var state: States
    var cyclePath: seq<string>
    const structs: seq<Struct>
    const known: set<string>
    /** The names in the order in which their walks ended. */
    ghost var finished: seq<string>

    constructor (structs: seq<Struct>)
      ensures this.structs == structs && known == Known(structs)
      ensures results == [] && inlineEdges == map[] && state == map[] && cyclePath == [] && finished == []
    {
      this.structs := structs;
      known := Known(structs);
      results, inlineEdges, state, cyclePath, finished := [], map[], map[], [], [];
    }

    function TargetsOf(name: string): seq<string>
      reads this`inlineEdges
    {
      if name in inlineEdges then inlineEdges[name] else []
    }

    ghost predicate EdgesBuilt()
      reads this`inlineEdges
    {
      known == Known(structs) && forall n :: TargetsOf(n) == EdgesOf(structs, n)
    }

    ghost function Unseen(): set<string>
      reads this`state
    {
      set n | n in known && StateOf(state, n) == Unvisited
    }

    /** walk: true when an edge to a name on the stack was met. */
    method Walk(name: string, above: seq<string>) returns (found: bool)
      requires EdgesBuilt() && Walking(structs, state, finished, above)
      requires name in known && StateOf(state, name) == Unvisited
      requires above != [] ==> Edge(structs, above[|above| - 1], name)
      modifies this`state, this`cyclePath, this`finished
      ensures found ==> Reported(structs, cyclePath)
      ensures !found ==> Walking(structs, state, finished, above) && name in finished
      ensures !found ==> forall n :: n in old(finished) ==> n in finished
      ensures Unseen() <= old(Unseen())
      decreases Unseen()
    {
      Push(structs, state, finished, above, name);
      assert name in Unseen();
      state := state[name := OnStack];
      assert name !in Unseen();
      var path := above + [name];
      var edges := TargetsOf(name);
      for i := 0 to |edges|
        invariant Walking(structs, state, finished, path)
        invariant forall n :: n in old(finished) ==> n in finished
        invariant Unseen() < old(Unseen())
        invariant forall j :: 0 <= j < i && edges[j] in known ==> edges[j] in finished
      {
        var next := edges[i];
        if next !in known {
          continue;
        }
        EdgeIff(structs, name, next);
        match StateOf(state, next) {
          case OnStack =>
            cyclePath := path + [next];
            ReportOf(structs, path, next);
            return true;
          case Unvisited =>
            var inner := Walk(next, path);
            if inner {
              return true;
            }
          case Done =>
        }
      }
      assert name in path && StateOf(state, name) == OnStack;
      forall b | Edge(structs, name, b)
        ensures b in finished
      {
        EdgeIff(structs, name, b);
      }
      Pop(structs, state, finished, above, name);
      state := state[name := Done];
      finished := finished + [name];
      return false;
    }

    /** The edges of the embedding graph, with a diagnostic for each annotation that makes no sense. */
    method CollectEdges()
      requires known == Known(structs) && inlineEdges == map[] && results == []
      modifies this`inlineEdges, this`results
      ensures EdgesBuilt()
      ensures results == StructDiagnostics(structs)
    {
      for i := 0 to |structs|
        invariant forall n :: TargetsOf(n) + EdgesOf(structs[i..], n) == EdgesOf(structs, n)
        invariant results + StructDiagnostics(structs[i..]) == StructDiagnostics(structs)
      {
        NextStruct(results, structs, i);
        label Before:
        CollectStruct(structs[i]);
        forall n
          ensures TargetsOf(n) + EdgesOf(structs[i + 1..], n) == EdgesOf(structs, n)
        {
          NextEdges(old@Before(TargetsOf(n)), structs, i, n);
        }
      }
      assert structs[|structs|..] == [];
      forall n
        ensures TargetsOf(n) == EdgesOf(structs, n)
      {
        assert EdgesOf([], n) == [];
      }
    }

    method CollectStruct(sd: Struct)
      modifies this`inlineEdges, this`results
      ensures forall n :: TargetsOf(n) == old(TargetsOf(n)) + if n == sd.name then Targets(sd.fields) else []
      ensures results == old(results) + FieldDiagnostics(sd.name, sd.fields)
    {
      for j := 0 to |sd.fields|
        invariant forall n :: n != sd.name ==> TargetsOf(n) == old(TargetsOf(n))
        invariant TargetsOf(sd.name) + Targets(sd.fields[j..]) == old(TargetsOf(sd.name)) + Targets(sd.fields)
        invariant results + FieldDiagnostics(sd.name, sd.fields[j..])
            == old(results) + FieldDiagnostics(sd.name, sd.fields)
      {
        NextField(TargetsOf(sd.name), results, sd.name, sd.fields, j);
        CheckField(sd.name, sd.fields[j]);
      }
      assert sd.fields[|sd.fields|..] == [];
      assert TargetsOf(sd.name) == old(TargetsOf(sd.name)) + Targets(sd.fields);
    }

    method CheckField(host: string, slot: Option<Field>)
      modifies this`inlineEdges, this`results
      ensures forall n :: n != host ==> TargetsOf(n) == old(TargetsOf(n))
      ensures TargetsOf(host) == old(TargetsOf(host)) + if Embeds(slot) then [slot.value.raw] else []
      ensures results == old(results) + FieldDiagnostic(host, slot)
      ensures forall b :: !RulesOutStruct(b) && IsInline(slot, b) ==> TargetsOf(host) == old(TargetsOf(host)) + [b]
      ensures (forall b :: IsInline(slot, b) ==> RulesOutStruct(b)) ==> TargetsOf(host) == old(TargetsOf(host))
      ensures forall d :: IsMisused(host, slot, d) ==> results == old(results) + [d]
      ensures (forall d :: !IsMisused(host, slot, d)) ==> results == old(results)
    {
      FieldIs(host, slot);
      if slot.None? {
        return;
      }
      var f := slot.value;
      if f.inline == Absent {
        return;
      }
      if f.inline == NotBoolean {
        results := results + [FieldNotBoolean(host, f.name)];
        return;
      }
      if f.raw == "" {
        return;
      }
      if !CanBeStructType(f.raw) {
        results := results + [FieldNotStruct(host, f.name, f.raw)];
        return;
      }
      if f.inline.b {
        inlineEdges := inlineEdges[host := TargetsOf(host) + [f.raw]];
      }
    }

    /** The walk from every struct that is still unvisited; the first cycle ends the search. */
    method FindCycle()
      requires EdgesBuilt() && state == map[] && finished == []
      modifies this`state, this`cyclePath, this`finished, this`results
      ensures if HasCycle(structs)
        then Reported(structs, cyclePath) && results == old(results) + [Cycle(cyclePath)]
        else results == old(results) && exists rank :: Ranked(structs, rank)
    {
      for i := 0 to |structs|
        invariant Walking(structs, state, finished, [])
        invariant results == old(results)
        invariant forall j :: 0 <= j < i ==> structs[j].name in finished
      {
        var sd := structs[i];
        if StateOf(state, sd.name) != Unvisited {
          continue;
        }
        var found := Walk(sd.name, []);
        if found {
          results := results + [Cycle(cyclePath)];
          ReportedIsCycle(structs, cyclePath);
          return;
        }
      }
      ghost var rank := FinishedIsRank(structs, finished);
      RankedIsAcyclic(structs, rank);
    }
  }

  method CollectStructs(program: seq<Statement>) returns (structs: seq<Struct>)
    ensures structs == Structs(program)
  {
    structs := [];
    for i := 0 to |program|
      invariant structs + Structs(program[i..]) == Structs(program)
    {
      assert program[i..][1..] == program[i + 1..];
      if program[i].StructStmt? {
        structs := structs + [program[i].def];
      }
    }
    assert program[|program|..] == [];
  }

  lemma NextEnum(ds: seq<Diagnostic>, program: seq<Statement>, i: nat)
    requires i < |program|
    ensures ds + EnumDiagnostics(program[i..])
         == ds + EnumDiagnostic(program[i]) + EnumDiagnostics(program[i + 1..])
  {
    assert program[i..][1..] == program[i + 1..];
    Associative(ds, EnumDiagnostic(program[i]), EnumDiagnostics(program[i + 1..]));
  }

  method CollectEnums(program: seq<Statement>) returns (results: seq<Diagnostic>)
    ensures results == EnumDiagnostics(program)
  {
    results := [];
    for i := 0 to |program|
      invariant results + EnumDiagnostics(program[i..]) == EnumDiagnostics(program)
    {
      NextEnum(results, program, i);
      ghost var before := results;
      if program[i].EnumStmt? && program[i].inline == NotBoolean {
        results := results + [EnumNotBoolean(program[i].name)];
      }
      assert results == before + EnumDiagnostic(program[i]);
    }
    assert program[|program|..] == [] && results + [] == results;
  }

  /** ValidateFieldTags: one cycle diagnostic when there is a cycle, and none otherwise. A
      reported path is a genuine one; without a report every struct has a finite size. */
  method ValidateFieldTags(program: seq<Statement>) returns (results: seq<Diagnostic>)
    ensures HasCycle(Structs(program)) ==>
      exists path :: Reported(Structs(program), path) && results == Ordinary(program) + [Cycle(path)]
    ensures !HasCycle(Structs(program)) ==>
      && results == Ordinary(program)
      && exists size :: Layout(Structs(program), size)
    ensures forall d: Diagnostic :: !d.Cycle? ==> (d in results <==> Misuses(program, d))
    ensures CycleReported(results) <==> HasCycle(Structs(program))
    ensures InlinesItself(program) ==> CycleReported(results)
  {
    var structs := CollectStructs(program);
    var check := new FieldTagCheck(structs);
    check.CollectEdges();
    var enums := CollectEnums(program);
    check.results := check.results + enums;
    check.FindCycle();
    FiniteIffRanked(structs);
    results := check.results;
    OrdinaryResults(program, results);
    if InlinesItself(program) {
      SelfInlineIsCycle(program);
    }
  }

  lemma OrdinaryResults(program: seq<Statement>, results: seq<Diagnostic>)
    requires results == Ordinary(program) || exists path :: results == Ordinary(program) + [Cycle(path)]
    ensures forall d: Diagnostic :: !d.Cycle? ==> (d in results <==> Misuses(program, d))
    ensures CycleReported(results) <==> results != Ordinary(program)
  {
    forall d
      ensures d in Ordinary(program) <==> Misuses(program, d)
      ensures Misuses(program, d) ==> !d.Cycle?
    {
      OrdinaryIff(program, d);
    }
    if path :| results == Ordinary(program) + [Cycle(path)] {
      assert Cycle(path) in results;
    }
  }

  /** A cycle leaves no finite size for the structs on it, so no program that is rejected has a
      layout, and none that is accepted lacks one. */
  lemma CyclicHasNoLayout(structs: seq<Struct>)
    ensures HasCycle(structs) ==> !exists size :: Layout(structs, size)
  {
    if size :| Layout(structs, size) {
      LayoutIsRank(structs, size);
      RankedIsAcyclic(structs, size);
    }
  }
}

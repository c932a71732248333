/** What interface merging guarantees: for every program, what the results are and when there are
    diagnostics, stated on the graph of declarations. */
module IfaceTheorems {
  import opened Sequences
  import opened Wrappers
  import opened IfaceSig
  import opened IfaceSame
  import opened IfaceMerge
  import opened IfaceResolve

  /** The merged interfaces of a program. */
  datatype InterfaceSet = InterfaceSet(t: Tables, byName: Memo)

  ghost predicate OutcomeOf(t: Tables, byName: Memo, past: map<string, Past>, finished: seq<string>,
                            results: seq<Diagnostic>)
  {
    && ValidTables(t)
    && Finished(t, byName, past, finished)
    && CyclesReported(t, past, results)
    && (forall n :: n in finished <==> n in t.decls)
    && UnknownSince(t, [], results, [], finished, "", [])
    && ConflictsSince(past, [], results, [], finished, "", [])
  }

  /** What a complete run of the resolver leaves behind. */
  ghost predicate Outcome(t: Tables, byName: Memo, results: seq<Diagnostic>)
  {
    exists past, finished :: OutcomeOf(t, byName, past, finished, results)
  }

  /** Everything that finished since the start is reported. */
  ghost predicate Reported(t: Tables, v: View)
  {
    && UnknownSince(t, [], v.results, [], v.finished, "", [])
    && ConflictsSince(v.past, [], v.results, [], v.finished, "", [])
  }

  lemma ReportedLater(t: Tables, v: View, v': View)
    requires Reported(t, v) && Advanced(t, v, v') && forall n :: n in v.finished ==> n in v.past
    ensures Reported(t, v')
  {
    UnknownCompose(t, [], v.results, v'.results, [], v.finished, v'.finished, "", []);
    ConflictsCompose(v.past, v'.past, [], v.results, v'.results, [], v.finished, v'.finished, "", []);
  }

  method ResolveNext(r: IfaceResolver, name: string)
    requires r.Valid() && r.stack == [] && Reported(r.t, r.Now()) && name in r.t.decls
    modifies r
    ensures r.Valid() && r.stack == [] && Reported(r.t, r.Now())
    ensures name in r.finished && forall n :: n in old(r.finished) ==> n in r.finished
  {
    ghost var was := r.Now();
    assert forall n :: n in was.finished ==> n in was.past;
    var m := r.Resolve(name);
    ReportedLater(r.t, was, r.Now());
  }

  method ResolveInterfaces(program: seq<Statement>) returns (s: InterfaceSet, results: seq<Diagnostic>)
    ensures TablesOf(s.t, Declared(program, {}))
    ensures Outcome(s.t, s.byName, results)
  {
    var t := Collect(program);
    ValidIsSound(t);
    var r := new IfaceResolver(t);
    for i := 0 to |t.order|
      invariant r.t == t && r.Valid() && r.stack == [] && Reported(t, r.Now())
      invariant forall j :: 0 <= j < i ==> t.order[j] in r.finished
    {
      ResolveNext(r, t.order[i]);
    }
    FinishedDeclared(t, r.byName, r.past, r.finished);
    s, results := InterfaceSet(t, r.byName), r.results;
    assert OutcomeOf(t, r.byName, r.past, r.finished, results);
  }

  lemma FinishedDeclared(t: Tables, byName: Memo, past: map<string, Past>, finished: seq<string>)
    requires Finished(t, byName, past, finished)
    ensures forall n :: n in finished ==> n in t.decls
  {
    forall n | n in finished
      ensures n in t.decls
    {
      DoneIsDeclared(t, byName, past, finished, n);
    }
  }

  // ---------------------------------------------------------------------------------------
  // The parents of the results

  /** Ranks that fall from every interface to its parents. */
  ghost predicate Layered(byName: Memo, rank: map<string, nat>)
  {
    forall n :: n in byName ==> n in rank && ParentsBelow(byName, rank, n)
  }

  ghost predicate ParentsBelow(byName: Memo, rank: map<string, nat>, n: string)
    requires n in byName && n in rank
  {
    forall p :: p in byName[n].parents ==> p in byName && p in rank && rank[p] < rank[n]
  }

  ghost function RankOf(finished: seq<string>): (rank: map<string, nat>)
    ensures forall n :: n in rank <==> n in finished
    ensures forall n :: n in finished ==> rank[n] == First(finished, n)
  {
    map n | n in finished :: First(finished, n)
  }

  lemma EntryOf(t: Tables, byName: Memo, past: map<string, Past>, finished: seq<string>, n: string)
    requires Finished(t, byName, past, finished) && n in finished
    ensures Entry(t, byName, past, finished[..First(finished, n)], n)
  {
    var i := First(finished, n);
    assert Entry(t, byName, past, finished[..i], finished[i]);
  }

  lemma FirstBefore(finished: seq<string>, i: nat, p: string)
    requires i <= |finished| && p in finished[..i]
    ensures p in finished && First(finished, p) < i
  {
    var j :| 0 <= j < i && finished[j] == p;
  }

  /** The parent edges of the results form no cycle, whatever the declarations look like. */
  lemma ResultsAreLayered(t: Tables, byName: Memo, past: map<string, Past>, finished: seq<string>)
    requires Finished(t, byName, past, finished)
    ensures Layered(byName, RankOf(finished))
  {
    forall n | n in byName
      ensures ParentsBelow(byName, RankOf(finished), n)
    {
      EntryOf(t, byName, past, finished, n);
      forall p | p in byName[n].parents
        ensures p in finished && First(finished, p) < First(finished, n)
      {
        FirstBefore(finished, First(finished, n), p);
      }
    }
  }

  /** Every declared interface has a result, in which no method name occurs twice and all parents
      are declared; and the parent edges can be ranked. */
  lemma Results(t: Tables, byName: Memo, results: seq<Diagnostic>)
    requires Outcome(t, byName, results)
    ensures forall n :: n in byName <==> n in t.decls
    ensures forall n :: n in byName ==> byName[n].name == n && DistinctNames(byName[n].methods)
    ensures exists rank :: Layered(byName, rank)
  {
    var past: map<string, Past>, finished :| OutcomeOf(t, byName, past, finished, results);
    ResultsAreLayered(t, byName, past, finished);
    forall n | n in byName
      ensures byName[n].name == n && DistinctNames(byName[n].methods)
    {
      EntryOf(t, byName, past, finished, n);
      FirstOfEachKeeps(past[n].arrived);
    }
  }

  // ---------------------------------------------------------------------------------------
  // Cycles

  lemma NoneSkipped(ps: seq<string>, cut: set<string>)
    requires forall p :: p in ps ==> p !in cut
    ensures Minus(ps, cut) == ps
  {
    if ps != [] {
      NoneSkipped(ps[..|ps| - 1], cut);
      assert ps == ps[..|ps| - 1] + [ps[|ps| - 1]];
      assert ps[|ps| - 1] in ps;
    }
  }

  ghost predicate CycleReported(results: seq<Diagnostic>)
  {
    exists d :: d in results && d.MergeCycle?
  }

  /** Without a cycle report no parent has been left out. */
  lemma AllParents(t: Tables, byName: Memo, past: map<string, Past>, finished: seq<string>, results: seq<Diagnostic>,
                   n: string)
    requires OutcomeOf(t, byName, past, finished, results) && !CycleReported(results) && n in t.decls
    ensures n in byName && byName[n].parents == Looked(t, t.decls[n].implements)
  {
    EntryOf(t, byName, past, finished, n);
    var ps := Looked(t, t.decls[n].implements);
    forall p | p in ps
      ensures p !in past[n].stack
    {
      assert p in past[n].stack ==> ReportsEdge(results, n, p);
    }
    NoneSkipped(ps, past[n].stack);
  }

  lemma {:induction false} ChainFalls(t: Tables, rank: map<string, nat>, path: seq<string>, i: nat)
    requires Chain(t, path) && 0 < i < |path|
    requires forall n, p :: ParentOf(t, n, p) ==> n in rank && p in rank && rank[p] < rank[n]
    ensures path[0] in rank && path[i] in rank && rank[path[i]] < rank[path[0]]
  {
    assert Link(t, path, i - 1);
    assert ParentOf(t, path[i - 1], path[i]);
    if i > 1 {
      ChainFalls(t, rank, path, i - 1);
    }
  }

  /** A cycle is reported if and only if the parent graph has one, and every reported path is a
      closed walk in it. */
  lemma CycleIff(t: Tables, byName: Memo, results: seq<Diagnostic>)
    requires Outcome(t, byName, results)
    ensures CycleReported(results) <==> Cyclic(t)
    ensures forall d :: d in results && d.MergeCycle? ==> ClosedWalk(t, d.path)
  {
    var past: map<string, Past>, finished :| OutcomeOf(t, byName, past, finished, results);
    if !CycleReported(results) && Cyclic(t) {
      var path :| ClosedWalk(t, path);
      var rank := RankOf(finished);
      ResultsAreLayered(t, byName, past, finished);
      forall n, p | ParentOf(t, n, p)
        ensures n in rank && p in rank && rank[p] < rank[n]
      {
        AllParents(t, byName, past, finished, results, n);
        assert ParentsBelow(byName, rank, n);
      }
      ChainFalls(t, rank, path, |path| - 1);
    }
  }

  /** A parent is reported as unknown exactly when no declared interface goes by that name. */
  lemma UnknownIff(t: Tables, byName: Memo, results: seq<Diagnostic>, n: string, ref: string)
    requires Outcome(t, byName, results)
    ensures UnknownParent(n, ref) in results <==> n in t.decls && ref in t.decls[n].implements && Lookup(t, ref).None?
  {
    var past: map<string, Past>, finished :| OutcomeOf(t, byName, past, finished, results);
    assert UnknownSince(t, [], results, [], finished, "", []);
  }

  // ---------------------------------------------------------------------------------------
  // Closures

  /** path leads along parents from its first element to its last. */
  ghost predicate Leads(byName: Memo, path: seq<string>)
  {
    && path != [] && path[0] in byName
    && (|path| > 1 ==> path[1] in byName[path[0]].parents && Leads(byName, path[1..]))
  }

  /** a is n or one of its ancestors. */
  ghost predicate Reaches(byName: Memo, n: string, a: string)
  {
    exists path :: Leads(byName, path) && path[0] == n && path[|path| - 1] == a
  }

  lemma ReachesStep(byName: Memo, n: string, a: string)
    requires n in byName && forall p :: p in byName[n].parents ==> p in byName
    ensures Reaches(byName, n, a) <==> a == n || exists p :: p in byName[n].parents && Reaches(byName, p, a)
  {
    if path :| Leads(byName, path) && path[0] == n && path[|path| - 1] == a {
      if |path| > 1 {
        assert Leads(byName, path[1..]) && path[1..][0] == path[1] && path[1..][|path| - 2] == a;
        assert Reaches(byName, path[1], a);
      }
    }
    if a == n {
      assert Leads(byName, [n]) && [n][0] == n && [n][|[n]| - 1] == a;
    }
    if p :| p in byName[n].parents && Reaches(byName, p, a) {
      var path :| Leads(byName, path) && path[0] == p && path[|path| - 1] == a;
      var longer := [n] + path;
      assert longer[1..] == path;
      assert Leads(byName, longer) && longer[|longer| - 1] == a;
    }
  }

  lemma {:induction false} AncestorsDeclared(byName: Memo, rank: map<string, nat>, n: string, a: string)
    requires Layered(byName, rank) && n in byName && Reaches(byName, n, a)
    ensures a in byName && rank[a] <= rank[n]
    decreases rank[n]
  {
    assert ParentsBelow(byName, rank, n);
    ReachesStep(byName, n, a);
    if a != n {
      var p :| p in byName[n].parents && Reaches(byName, p, a);
      AncestorsDeclared(byName, rank, p, a);
    }
  }

  /** A set of interfaces that holds the parents of its elements. */
  ghost predicate ClosedUp(byName: Memo, s: set<string>)
  {
    forall n :: n in s ==> n in byName && forall p :: p in byName[n].parents ==> p in s
  }

  lemma {:induction false} ClosedUpReaches(byName: Memo, rank: map<string, nat>, s: set<string>, n: string, a: string)
    requires Layered(byName, rank) && ClosedUp(byName, s) && n in s && Reaches(byName, n, a)
    ensures a in s
    decreases rank[n]
  {
    assert ParentsBelow(byName, rank, n);
    ReachesStep(byName, n, a);
    if a != n {
      var p :| p in byName[n].parents && Reaches(byName, p, a);
      ClosedUpReaches(byName, rank, s, p, a);
    }
  }

  /** walk of Closure: `open` are the interfaces whose walks have begun and not ended. */
  method Walk(byName: Memo, n: string, seen: set<string>, out: seq<string>, ghost open: set<string>,
              ghost rank: map<string, nat>) returns (seen': set<string>, out': seq<string>)
    requires Layered(byName, rank) && "" !in byName && n in byName
    requires forall o :: o in open ==> o in rank && rank[n] < rank[o]
    requires ClosedUp(byName, seen - open) && open <= seen
    requires Distinct(out) && forall x :: x in seen <==> x in out
    ensures forall a :: a in seen' <==> a in seen || Reaches(byName, n, a)
    ensures ClosedUp(byName, seen' - open)
    ensures Distinct(out') && (forall x :: x in seen' <==> x in out') && out <= out'
    ensures n !in seen ==> |out| < |out'| && out'[|out|] == n
    decreases rank[n], 1
  {
    if n == "" || n in seen {
      SeenReaches(byName, rank, seen, open, n);
      return seen, out;
    }
    seen', out' := seen + {n}, out + [n];
    assert ParentsBelow(byName, rank, n);
    assert seen' - (open + {n}) == seen - open;
    var parents := byName[n].parents;
    for i := 0 to |parents|
      invariant open + {n} <= seen'
      invariant ClosedUp(byName, seen' - (open + {n}))
      invariant Distinct(out') && (forall x :: x in seen' <==> x in out') && out + [n] <= out'
      invariant forall a :: a in seen' <==> a in seen + {n} || ReachesFrom(byName, parents[..i], a)
    {
      assert parents[i] in parents;
      ReachesAppend(byName, parents, i);
      seen', out' := Walk(byName, parents[i], seen', out', open + {n}, rank);
    }
    assert parents[..|parents|] == parents;
    WalkDone(byName, rank, seen, seen', open, n);
  }

  /** a is reached from one of the interfaces. */
  ghost predicate ReachesFrom(byName: Memo, ns: seq<string>, a: string)
  {
    exists n :: n in ns && Reaches(byName, n, a)
  }

  lemma ReachesAppend(byName: Memo, ns: seq<string>, i: nat)
    requires i < |ns|
    ensures forall a ::
              ReachesFrom(byName, ns[..i + 1], a) <==> ReachesFrom(byName, ns[..i], a) || Reaches(byName, ns[i], a)
  {
    assert ns[..i + 1] == ns[..i] + [ns[i]];
  }

  /** An interface that has been seen and is not open was walked to the end. */
  lemma SeenReaches(byName: Memo, rank: map<string, nat>, seen: set<string>, open: set<string>, n: string)
    requires Layered(byName, rank) && n in byName && n in seen
    requires forall o :: o in open ==> o in rank && rank[n] < rank[o]
    requires ClosedUp(byName, seen - open)
    ensures forall a :: Reaches(byName, n, a) ==> a in seen
  {
    forall a | Reaches(byName, n, a)
      ensures a in seen
    {
      ClosedUpReaches(byName, rank, seen - open, n, a);
    }
  }

  lemma WalkDone(byName: Memo, rank: map<string, nat>, seen: set<string>, seen': set<string>, open: set<string>,
                 n: string)
    requires Layered(byName, rank) && n in byName && n !in seen && n !in open
    requires forall o :: o in open ==> o in rank && rank[n] < rank[o]
    requires ClosedUp(byName, seen' - (open + {n}))
    requires forall a :: a in seen' <==> a in seen + {n} || ReachesFrom(byName, byName[n].parents, a)
    ensures forall a :: a in seen' <==> a in seen || Reaches(byName, n, a)
    ensures ClosedUp(byName, seen' - open)
  {
    assert ParentsBelow(byName, rank, n);
    forall a
      ensures Reaches(byName, n, a) <==> a == n || ReachesFrom(byName, byName[n].parents, a)
    {
      ReachesStep(byName, n, a);
    }
    forall p | p in byName[n].parents
      ensures p in seen' - (open + {n})
    {
      ReachesStep(byName, p, p);
    }
    assert seen' - open == seen' - (open + {n}) + {n};
  }

  function LookupFull(s: InterfaceSet, ref: string): Option<string>
  {
    if ref in s.byName then Some(ref)
    else
      var cands := Candidates(s.t, BaseName(ref));
      if |cands| == 1 then Some(cands[0]) else None
  }

  function MethodsOf(s: InterfaceSet, name: string): seq<Method>
  {
    if name == "" then []
    else if name in s.byName then s.byName[name].methods
    else
      var cands := Candidates(s.t, BaseName(name));
      if |cands| == 1 && cands[0] in s.byName then s.byName[cands[0]].methods else []
  }

  /** Closure: an interface and all its ancestors, each once, itself first. */
  method Closure(s: InterfaceSet, name: string, ghost results: seq<Diagnostic>) returns (out: seq<string>)
    requires Outcome(s.t, s.byName, results)
    ensures name == "" || LookupFull(s, name).None? ==> out == []
    ensures name != "" && LookupFull(s, name).Some? ==>
      var full := LookupFull(s, name).value;
      out != [] && out[0] == full && Distinct(out) && forall a :: a in out <==> Reaches(s.byName, full, a)
  {
    if name == "" {
      return [];
    }
    var look := LookupFull(s, name);
    if look.None? {
      return [];
    }
    Results(s.t, s.byName, results);
    FullIsDeclared(s, name, results);
    ghost var rank :| Layered(s.byName, rank);
    var seen, out' := Walk(s.byName, look.value, {}, [], {}, rank);
    out := out';
  }

  lemma FullIsDeclared(s: InterfaceSet, name: string, results: seq<Diagnostic>)
    requires Outcome(s.t, s.byName, results)
    ensures name != "" && LookupFull(s, name).Some? ==> LookupFull(s, name).value in s.byName
    ensures name != "" ==> LookupFull(s, name) == Lookup(s.t, name)
    ensures "" !in s.byName
    ensures MethodsOf(s, name) == match Lookup(s.t, name) case None => [] case Some(full) => s.byName[full].methods
  {
    Results(s.t, s.byName, results);
    ValidIsSound(s.t);
    if name !in s.byName && name != "" {
      assert Lookup(s.t, name) == LookupFull(s, name);
    }
  }

  // ---------------------------------------------------------------------------------------
  // Method sets

  ghost function Own(t: Tables, n: string): seq<Method>
  {
    if n in t.decls then OwnMethods(t.decls[n].methods) else []
  }

  /** m is declared by n or by one of its ancestors. */
  ghost predicate Inherits(t: Tables, byName: Memo, n: string, m: Method)
  {
    exists a :: Reaches(byName, n, a) && m in Own(t, a)
  }

  lemma {:induction false} InheritedMember(byName: Memo, parents: seq<string>, m: Method)
    requires forall p :: p in parents ==> p in byName
    ensures m in Inherited(byName, parents) <==> exists p :: p in parents && m in byName[p].methods
  {
    if parents != [] {
      var init, last := parents[..|parents| - 1], parents[|parents| - 1];
      InheritedMember(byName, init, m);
      assert parents == init + [last];
      assert m in Inherited(byName, parents) <==> m in Inherited(byName, init) || m in byName[last].methods;
      if m in byName[last].methods {
        assert last in parents;
      }
    }
  }

  /** What arrives at an interface: its own methods and the methods of its parents. */
  lemma ArrivedMember(t: Tables, byName: Memo, past: map<string, Past>, finished: seq<string>, n: string, m: Method)
    requires Finished(t, byName, past, finished) && n in finished
    ensures n in byName && n in past && forall p :: p in byName[n].parents ==> p in byName
    ensures m in past[n].arrived <==> m in Own(t, n) || exists p :: p in byName[n].parents && m in byName[p].methods
  {
    EntryOf(t, byName, past, finished, n);
    InheritedMember(byName, byName[n].parents, m);
  }

  /** Every method of the result is declared in the closure. */
  lemma {:induction false} MethodsAreInherited(t: Tables, byName: Memo, past: map<string, Past>, finished: seq<string>,
                                               n: string, m: Method)
    requires Finished(t, byName, past, finished) && n in finished && m in past[n].arrived
    ensures Inherits(t, byName, n, m)
    decreases First(finished, n)
  {
    ArrivedMember(t, byName, past, finished, n, m);
    if m in Own(t, n) {
      ReachesStep(byName, n, n);
    } else {
      var p :| p in byName[n].parents && m in byName[p].methods;
      ParentOfFinished(t, byName, past, finished, n, p);
      MethodsAreInherited(t, byName, past, finished, p, m);
      var a :| Reaches(byName, p, a) && m in Own(t, a);
      ReachesStep(byName, n, a);
    }
  }

  lemma ParentOfFinished(t: Tables, byName: Memo, past: map<string, Past>, finished: seq<string>, n: string, p: string)
    requires Finished(t, byName, past, finished) && n in finished && n in byName && p in byName[n].parents
    ensures p in finished && First(finished, p) < First(finished, n) && p in past && p in byName
    ensures forall m :: m in byName[p].methods ==> m in past[p].arrived
  {
    EntryOf(t, byName, past, finished, n);
    FirstBefore(finished, First(finished, n), p);
    EntryOf(t, byName, past, finished, p);
    FirstOfEachKeeps(past[p].arrived);
  }

  /** Every name declared in the closure arrives at the interface, with the signature it was
      declared with as long as no conflict is met on the way. */
  lemma {:induction false} InheritedArrives(t: Tables, byName: Memo, past: map<string, Past>, finished: seq<string>,
                                            n: string, a: string, m: Method) returns (k: Method)
    requires Finished(t, byName, past, finished) && n in finished
    requires Reaches(byName, n, a) && m in Own(t, a)
    ensures n in past && k in past[n].arrived && k.name == m.name
    ensures (forall q :: q in past ==> !Clash(past[q].arrived, m.name))
        ==> CanonicalMethodSig(k) == CanonicalMethodSig(m)
    decreases First(finished, n)
  {
    ArrivedMember(t, byName, past, finished, n, m);
    ReachesStep(byName, n, a);
    if a == n {
      k := m;
    } else {
      var p :| p in byName[n].parents && Reaches(byName, p, a);
      ParentOfFinished(t, byName, past, finished, n, p);
      var k' := InheritedArrives(t, byName, past, finished, p, a, m);
      EntryOf(t, byName, past, finished, p);
      k := KeptFor(past[p].arrived, k');
      ArrivedMember(t, byName, past, finished, n, k);
    }
  }

  /** The method that is kept for the name of a method that arrived. */
  lemma KeptFor(arrived: seq<Method>, m: Method) returns (k: Method)
    requires m in arrived
    ensures k in FirstOfEach(arrived) && k in arrived && k.name == m.name
    ensures !Clash(arrived, m.name) ==> CanonicalMethodSig(k) == CanonicalMethodSig(m)
  {
    FirstOfEachKeeps(arrived);
    var i :| 0 <= i < |arrived| && arrived[i] == m;
    assert HasName(arrived, m.name);
    var j :| 0 <= j < |FirstOfEach(arrived)| && FirstOfEach(arrived)[j].name == m.name;
    k := FirstOfEach(arrived)[j];
  }

  ghost predicate SomeInherited(t: Tables, byName: Memo, n: string, x: string)
  {
    exists m :: Inherits(t, byName, n, m) && m.name == x
  }

  /** The names of the merged methods are those of all methods declared in the closure. */
  lemma NamesOfClosure(t: Tables, byName: Memo, results: seq<Diagnostic>, n: string, x: string)
    requires Outcome(t, byName, results) && n in t.decls
    ensures n in byName
    ensures HasName(byName[n].methods, x) <==> SomeInherited(t, byName, n, x)
  {
    var past: map<string, Past>, finished :| OutcomeOf(t, byName, past, finished, results);
    EntryOf(t, byName, past, finished, n);
    FirstOfEachKeeps(past[n].arrived);
    if HasName(byName[n].methods, x) {
      NameIsInherited(t, byName, past, finished, n, x);
    }
    if m :| Inherits(t, byName, n, m) && m.name == x {
      InheritedNameArrives(t, byName, past, finished, n, m);
    }
  }

  lemma NameIsInherited(t: Tables, byName: Memo, past: map<string, Past>, finished: seq<string>, n: string, x: string)
    requires Finished(t, byName, past, finished) && n in finished && HasName(byName[n].methods, x)
    ensures SomeInherited(t, byName, n, x)
  {
    EntryOf(t, byName, past, finished, n);
    FirstOfEachKeeps(past[n].arrived);
    var i :| 0 <= i < |byName[n].methods| && byName[n].methods[i].name == x;
    MethodsAreInherited(t, byName, past, finished, n, byName[n].methods[i]);
  }

  lemma InheritedNameArrives(t: Tables, byName: Memo, past: map<string, Past>, finished: seq<string>, n: string,
                             m: Method)
    requires Finished(t, byName, past, finished) && n in finished && Inherits(t, byName, n, m)
    ensures HasName(past[n].arrived, m.name)
  {
    var a :| Reaches(byName, n, a) && m in Own(t, a);
    var k := InheritedArrives(t, byName, past, finished, n, a, m);
    var i :| 0 <= i < |past[n].arrived| && past[n].arrived[i] == k;
    assert past[n].arrived[i].name == m.name;
  }

  /** All methods of this name in the closure of n have the same canonical signature. */
  ghost predicate Agree(t: Tables, byName: Memo, n: string)
  {
    forall a, b :: Inherits(t, byName, n, a) && Inherits(t, byName, n, b) && a.name == b.name
      ==> CanonicalMethodSig(a) == CanonicalMethodSig(b)
  }

  /** All methods of this name in the closure of n are the same: in the types of parameters and results. */
  ghost predicate AgreeInTypes(t: Tables, byName: Memo, n: string)
  {
    forall a, b :: Inherits(t, byName, n, a) && Inherits(t, byName, n, b) && a.name == b.name ==> SameMethod(a, b)
  }

  /** Commas, bars and placeholders in the type texts of the program leave the signatures readable. */
  ghost predicate AllMethodsTidy(t: Tables)
  {
    forall n, m :: n in t.decls && m in Own(t, n) ==> IsTidyMethod(m)
  }

  lemma InheritedIsTidy(t: Tables, byName: Memo, n: string, m: Method)
    requires AllMethodsTidy(t) && Inherits(t, byName, n, m)
    ensures IsTidyMethod(m)
  {
    var a :| Reaches(byName, n, a) && m in Own(t, a);
  }

  lemma AgreeInTypesAgree(t: Tables, byName: Memo, n: string)
    requires AgreeInTypes(t, byName, n)
    ensures Agree(t, byName, n)
  {
    forall a, b | Inherits(t, byName, n, a) && Inherits(t, byName, n, b) && a.name == b.name
      ensures CanonicalMethodSig(a) == CanonicalMethodSig(b)
    {
      SameMethodSignature(a, b);
    }
  }

  lemma TidyAgreeInTypes(t: Tables, byName: Memo, n: string)
    requires AllMethodsTidy(t) && Agree(t, byName, n)
    ensures AgreeInTypes(t, byName, n)
  {
    forall a, b | Inherits(t, byName, n, a) && Inherits(t, byName, n, b) && a.name == b.name
      ensures SameMethod(a, b)
    {
      InheritedIsTidy(t, byName, n, a);
      InheritedIsTidy(t, byName, n, b);
      SignatureIff(a, b);
    }
  }

  ghost predicate ConflictReported(results: seq<Diagnostic>)
  {
    exists n, x :: ReportsConflict(results, n, x)
  }

  /** No conflict is reported if all methods of one name that are declared anywhere in the closure of an interface are
      the same method, for every interface; and, where the type texts are tidy, only if they are. */
  lemma ConflictIff(t: Tables, byName: Memo, results: seq<Diagnostic>)
    requires Outcome(t, byName, results)
    ensures (forall n :: n in t.decls ==> AgreeInTypes(t, byName, n)) ==> !ConflictReported(results)
    ensures AllMethodsTidy(t) ==>
              (!ConflictReported(results) <==> forall n :: n in t.decls ==> AgreeInTypes(t, byName, n))
  {
    ConflictIffSignatures(t, byName, results);
    forall n | n in t.decls
      ensures AgreeInTypes(t, byName, n) ==> Agree(t, byName, n)
      ensures AllMethodsTidy(t) && Agree(t, byName, n) ==> AgreeInTypes(t, byName, n)
    {
      if AgreeInTypes(t, byName, n) {
        AgreeInTypesAgree(t, byName, n);
      }
      if AllMethodsTidy(t) && Agree(t, byName, n) {
        TidyAgreeInTypes(t, byName, n);
      }
    }
  }

  /** No conflict is reported if and only if, for every interface, all methods of one name that
      are declared anywhere in its closure have the same canonical signature. */
  lemma ConflictIffSignatures(t: Tables, byName: Memo, results: seq<Diagnostic>)
    requires Outcome(t, byName, results)
    ensures !ConflictReported(results) <==> forall n :: n in t.decls ==> Agree(t, byName, n)
  {
    var past: map<string, Past>, finished :| OutcomeOf(t, byName, past, finished, results);
    forall n, x
      ensures ReportsConflict(results, n, x) <==> n in finished && n in past && Clash(past[n].arrived, x)
    {
      assert !ReportsConflict([], n, x);
      assert !Clash([], x);
    }
    if !ConflictReported(results) {
      forall n | n in t.decls
        ensures Agree(t, byName, n)
      {
        AgreeWithoutClash(t, byName, past, finished, n);
      }
    }
    if n, x :| ReportsConflict(results, n, x) {
      ClashDisagrees(t, byName, past, finished, n, x);
      assert n in t.decls;
    }
  }

  lemma AgreeWithoutClash(t: Tables, byName: Memo, past: map<string, Past>, finished: seq<string>, n: string)
    requires Finished(t, byName, past, finished) && n in finished
    requires forall q, x :: q in past ==> !Clash(past[q].arrived, x)
    ensures Agree(t, byName, n)
  {
    forall a, b | Inherits(t, byName, n, a) && Inherits(t, byName, n, b) && a.name == b.name
      ensures CanonicalMethodSig(a) == CanonicalMethodSig(b)
    {
      var p :| Reaches(byName, n, p) && a in Own(t, p);
      var q :| Reaches(byName, n, q) && b in Own(t, q);
      var k := InheritedArrives(t, byName, past, finished, n, p, a);
      var l := InheritedArrives(t, byName, past, finished, n, q, b);
      assert !Clash(past[n].arrived, a.name);
    }
  }

  lemma ClashDisagrees(t: Tables, byName: Memo, past: map<string, Past>, finished: seq<string>, n: string, x: string)
    requires Finished(t, byName, past, finished) && n in finished && n in past && Clash(past[n].arrived, x)
    ensures !Agree(t, byName, n)
  {
    var a, b :| a in past[n].arrived && b in past[n].arrived && a.name == x && b.name == x
      && CanonicalMethodSig(a) != CanonicalMethodSig(b);
    MethodsAreInherited(t, byName, past, finished, n, a);
    MethodsAreInherited(t, byName, past, finished, n, b);
  }

  // ---------------------------------------------------------------------------------------
  // The order of declarations

  ghost predicate SameLookups(t1: Tables, t2: Tables)
  {
    t1.decls == t2.decls && forall ref :: Lookup(t1, ref) == Lookup(t2, ref)
  }

  lemma {:induction false} SameLooked(t1: Tables, t2: Tables, refs: seq<string>)
    requires SameLookups(t1, t2)
    ensures Looked(t1, refs) == Looked(t2, refs)
  {
    if refs != [] {
      SameLooked(t1, t2, refs[1..]);
    }
  }

  lemma {:induction false} WithBaseDistinct(names: seq<string>, base: string)
    requires Distinct(names)
    ensures Distinct(WithBase(names, base))
  {
    if names != [] {
      WithBaseDistinct(names[1..], base);
      WithBaseMember(names[1..], base);
      assert names[0] !in names[1..];
    }
  }

  /** The same declarations in another order give the same answer to every lookup. */
  lemma ReorderedLookups(t1: Tables, ds1: seq<Decl>, t2: Tables, ds2: seq<Decl>)
    requires TablesOf(t1, ds1) && TablesOf(t2, ds2) && multiset(ds1) == multiset(ds2)
    ensures SameLookups(t1, t2)
  {
    forall n
      ensures n in t1.decls <==> n in t2.decls
      ensures n in t1.decls ==> t1.decls[n] == t2.decls[n]
    {
      if n in t1.decls {
        DeclListed(t1, ds1, t2, ds2, n);
      }
      if n in t2.decls {
        DeclListed(t2, ds2, t1, ds1, n);
      }
    }
    LookupsOfDecls(t1, t2);
  }

  lemma LookupsOfDecls(t1: Tables, t2: Tables)
    requires ValidTables(t1) && ValidTables(t2) && t1.decls == t2.decls
    ensures forall ref :: Lookup(t1, ref) == Lookup(t2, ref)
  {
    assert forall n :: n in t1.order <==> n in t2.order;
    forall ref
      ensures Lookup(t1, ref) == Lookup(t2, ref)
    {
      var base := BaseName(ref);
      SameSingleton(t1.order, t2.order, base);
      assert Candidates(t1, base) == WithBase(t1.order, base) && Candidates(t2, base) == WithBase(t2.order, base);
    }
  }

  lemma DeclListed(t1: Tables, ds1: seq<Decl>, t2: Tables, ds2: seq<Decl>, n: string)
    requires TablesOf(t1, ds1) && TablesOf(t2, ds2) && multiset(ds1) == multiset(ds2) && n in t1.decls
    ensures n in t2.decls && t2.decls[n] == t1.decls[n]
  {
    var i :| 0 <= i < |t1.order| && t1.order[i] == n;
    assert ds1[i] in multiset(ds1);
    assert ds1[i] in multiset(ds2);
    var j :| 0 <= j < |ds2| && ds2[j] == ds1[i];
    assert t2.order[j] == ds2[j].name;
  }

  lemma SameSingleton(a: seq<string>, b: seq<string>, base: string)
    requires Distinct(a) && Distinct(b) && forall n :: n in a <==> n in b
    ensures |WithBase(a, base)| == 1 <==> |WithBase(b, base)| == 1
    ensures |WithBase(a, base)| == 1 ==> WithBase(a, base) == WithBase(b, base)
  {
    WithBaseDistinct(a, base);
    WithBaseDistinct(b, base);
    WithBaseMember(a, base);
    WithBaseMember(b, base);
    SingletonSame(WithBase(a, base), WithBase(b, base));
  }

  lemma SingletonSame(u: seq<string>, v: seq<string>)
    requires Distinct(u) && Distinct(v) && forall n :: n in u <==> n in v
    ensures |u| == |v|
    ensures |u| == 1 ==> u == v
  {
    DistinctCount(u);
    DistinctCount(v);
    assert Elements(u) == Elements(v);
    assert |u| == 1 ==> v[0] in u;
  }

  /** Without a cycle, the results do not depend on the order of the declarations. */
  lemma OrderIndependent(t1: Tables, b1: Memo, r1: seq<Diagnostic>, t2: Tables, b2: Memo, r2: seq<Diagnostic>)
    requires Outcome(t1, b1, r1) && Outcome(t2, b2, r2)
    requires SameLookups(t1, t2) && !Cyclic(t1)
    ensures b1 == b2
  {
    CycleIff(t1, b1, r1);
    CycleIff(t2, b2, r2);
    if Cyclic(t2) {
      SameCycles(t2, t1);
    }
    SameResults(t1, b1, r1, t2, b2, r2);
  }

  lemma SameResults(t1: Tables, b1: Memo, r1: seq<Diagnostic>, t2: Tables, b2: Memo, r2: seq<Diagnostic>)
    requires Outcome(t1, b1, r1) && Outcome(t2, b2, r2)
    requires SameLookups(t1, t2) && !CycleReported(r1) && !CycleReported(r2)
    ensures b1 == b2
  {
    ResultKeys(t1, b1, r1);
    ResultKeys(t2, b2, r2);
    forall n | n in t1.decls
      ensures b1[n] == b2[n]
    {
      SameResultFor(t1, b1, r1, t2, b2, r2, n);
    }
    SameMaps(b1, b2);
  }

  lemma SameMaps(b1: Memo, b2: Memo)
    requires b1.Keys == b2.Keys && forall n :: n in b1 ==> b1[n] == b2[n]
    ensures b1 == b2
  {
  }

  lemma ResultKeys(t: Tables, byName: Memo, results: seq<Diagnostic>)
    requires Outcome(t, byName, results)
    ensures byName.Keys == t.decls.Keys
  {
    Results(t, byName, results);
  }

  lemma SameResultFor(t1: Tables, b1: Memo, r1: seq<Diagnostic>, t2: Tables, b2: Memo, r2: seq<Diagnostic>, n: string)
    requires Outcome(t1, b1, r1) && Outcome(t2, b2, r2)
    requires SameLookups(t1, t2) && !CycleReported(r1) && !CycleReported(r2)
    requires n in t1.decls
    ensures n in b1 && n in b2 && b1[n] == b2[n]
  {
    var p1: map<string, Past>, f1 :| OutcomeOf(t1, b1, p1, f1, r1);
    var p2: map<string, Past>, f2 :| OutcomeOf(t2, b2, p2, f2, r2);
    SameResult(t1, b1, p1, f1, r1, t2, b2, p2, f2, r2, n);
  }

  lemma SameCycles(t1: Tables, t2: Tables)
    requires SameLookups(t1, t2) && Cyclic(t1)
    ensures Cyclic(t2)
  {
    var path :| ClosedWalk(t1, path);
    forall i
      ensures Link(t2, path, i)
    {
      assert Link(t1, path, i);
      if 0 <= i < |path| - 1 {
        SameLooked(t1, t2, t1.decls[path[i]].implements);
      }
    }
    assert ClosedWalk(t2, path);
  }

  lemma {:induction false} SameResult(t1: Tables, b1: Memo, p1: map<string, Past>, f1: seq<string>, r1: seq<Diagnostic>,
                                      t2: Tables, b2: Memo, p2: map<string, Past>, f2: seq<string>, r2: seq<Diagnostic>,
                                      n: string)
    requires OutcomeOf(t1, b1, p1, f1, r1) && OutcomeOf(t2, b2, p2, f2, r2)
    requires SameLookups(t1, t2) && !CycleReported(r1) && !CycleReported(r2)
    requires n in t1.decls
    ensures n in b1 && n in b2 && b1[n] == b2[n]
    decreases First(f1, n)
  {
    AllParents(t1, b1, p1, f1, r1, n);
    AllParents(t2, b2, p2, f2, r2, n);
    SameLooked(t1, t2, t1.decls[n].implements);
    EntryOf(t1, b1, p1, f1, n);
    EntryOf(t2, b2, p2, f2, n);
    var parents := b1[n].parents;
    forall p | p in parents
      ensures p in b1 && p in b2 && b1[p] == b2[p]
    {
      ParentOfFinished(t1, b1, p1, f1, n, p);
      SameResult(t1, b1, p1, f1, r1, t2, b2, p2, f2, r2, p);
    }
    InheritedSame(b1, b2, parents);
  }

  /** The order of the top-level declarations does not matter, as long as the graph has no cycle. */
  lemma ReorderedPrograms(ds1: seq<Decl>, t1: Tables, b1: Memo, r1: seq<Diagnostic>,
                          ds2: seq<Decl>, t2: Tables, b2: Memo, r2: seq<Diagnostic>)
    requires TablesOf(t1, ds1) && TablesOf(t2, ds2) && multiset(ds1) == multiset(ds2)
    requires Outcome(t1, b1, r1) && Outcome(t2, b2, r2) && !Cyclic(t1)
    ensures b1 == b2
  {
    ReorderedLookups(t1, ds1, t2, ds2);
    OrderIndependent(t1, b1, r1, t2, b2, r2);
  }
}

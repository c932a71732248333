/** The resolver of interface merging: a depth-first search with a state per interface, a stack,
    a memo of finished results, and diagnostics collected on the way. */
module IfaceResolve {
  import opened Sequences
  import opened Wrappers
  import opened IfaceSame
  import opened IfaceSig
  import opened IfaceMerge

  datatype Merged = Merged(name: string, decl: Decl, methods: seq<Method>, parents: seq<string>)

  datatype Diagnostic =
    | UnknownParent(name: string, parent: string)
    | MergeCycle(path: seq<string>)
    | Conflict(name: string, mthName: string, owner: string, prevOwner: string)

  type Memo = map<string, Merged>

  // ---------------------------------------------------------------------------------------
  // What a finished resolution is

  /** The methods of the parents, parent by parent. */
  ghost function Inherited(byName: Memo, parents: seq<string>): seq<Method>
    requires forall p :: p in parents ==> p in byName
  {
    if parents == [] then []
    else Inherited(byName, parents[..|parents| - 1]) + byName[parents[|parents| - 1]].methods
  }

  ghost function Minus(ps: seq<string>, cut: set<string>): seq<string>
  {
    if ps == [] then []
    else Minus(ps[..|ps| - 1], cut) + if ps[|ps| - 1] in cut then [] else [ps[|ps| - 1]]
  }

  /** What the search remembers of a finished interface besides its result: the names that were on
      the stack, and the list of methods that arrived at it. */
  datatype Past = Past(stack: set<string>, arrived: seq<Method>)

  ghost predicate Entry(t: Tables, byName: Memo, past: map<string, Past>, earlier: seq<string>, n: string)
  {
    && n in t.decls && n in byName && n in past
    && var m := byName[n];
    && m.name == n && m.decl == t.decls[n]
    && m.parents == Minus(Looked(t, m.decl.implements), past[n].stack)
    && (forall p :: p in m.parents ==> p in earlier && p in byName)
    && past[n].arrived == Inherited(byName, m.parents) + OwnMethods(m.decl.methods)
    && m.methods == FirstOfEach(past[n].arrived)
  }

  /** Every finished interface rests on interfaces that finished before it. */
  ghost predicate Finished(t: Tables, byName: Memo, past: map<string, Past>, finished: seq<string>)
  {
    && (forall n :: n in byName <==> n in finished)
    && (forall n :: n in past <==> n in finished)
    && forall i {:trigger Entry(t, byName, past, finished[..i], finished[i])} ::
         0 <= i < |finished| ==> Entry(t, byName, past, finished[..i], finished[i])
  }

  /** A diagnostic shows the edge from n back to p. */
  ghost predicate ReportsEdge(results: seq<Diagnostic>, n: string, p: string)
  {
    exists d :: d in results && d.MergeCycle? && |d.path| > 1 && d.path[|d.path| - 2] == n && d.path[|d.path| - 1] == p
  }

  ghost predicate ReportsConflict(results: seq<Diagnostic>, n: string, mthName: string)
  {
    exists d :: d in results && d.Conflict? && d.name == n && d.mthName == mthName
  }

  /** Every reported cycle is a closed walk along parents, and every parent that was skipped for
      being on the stack is reported. */
  ghost predicate CyclesReported(t: Tables, past: map<string, Past>, results: seq<Diagnostic>)
  {
    && (forall d :: d in results && d.MergeCycle? ==> ClosedWalk(t, d.path))
    && forall n, p {:trigger ReportsEdge(results, n, p)} ::
         n in past && n in t.decls && p in past[n].stack && p in Looked(t, t.decls[n].implements) ==>
           ReportsEdge(results, n, p)
  }

  /** The unknown parents reported between two moments: those of the interfaces that finished in
      between, and, for the one still open, those among the references seen so far. */
  ghost predicate UnknownSince(t: Tables, before: seq<Diagnostic>, results: seq<Diagnostic>,
                               was: seq<string>, finished: seq<string>, open: string, refs: seq<string>)
  {
    forall n, r {:trigger UnknownParent(n, r) in results} :: UnknownParent(n, r) in results <==>
      || UnknownParent(n, r) in before
      || (n in finished && n !in was && n in t.decls && r in t.decls[n].implements && Lookup(t, r).None?)
      || (n == open && r in refs && Lookup(t, r).None?)
  }

  /** The same for conflicts; `arrived` are the methods that have arrived at the open interface. */
  ghost predicate ConflictsSince(past: map<string, Past>, before: seq<Diagnostic>, results: seq<Diagnostic>,
                                 was: seq<string>, finished: seq<string>, open: string, arrived: seq<Method>)
  {
    forall n, x {:trigger ReportsConflict(results, n, x)} :: ReportsConflict(results, n, x) <==>
      || ReportsConflict(before, n, x)
      || (n in finished && n !in was && n in past && Clash(past[n].arrived, x))
      || (n == open && Clash(arrived, x))
  }

  // ---------------------------------------------------------------------------------------
  // The search

  datatype State = Unvisited | OnStack | Done

  function StateOf(state: map<string, State>, n: string): State
  {
    if n in state then state[n] else Unvisited
  }

  ghost predicate Searching(t: Tables, state: map<string, State>, stack: seq<string>, finished: seq<string>)
  {
    && Sound(t)
    && Chain(t, stack)
    && (forall n :: StateOf(state, n) == OnStack <==> n in stack)
    && (forall n :: StateOf(state, n) == Done <==> n in finished)
    && (forall n :: n in stack ==> n in t.decls)
  }

  lemma Push(t: Tables, state: map<string, State>, stack: seq<string>, finished: seq<string>, name: string)
    requires Searching(t, state, stack, finished)
    requires name in t.decls && StateOf(state, name) == Unvisited
    requires stack != [] ==> ParentOf(t, stack[|stack| - 1], name)
    ensures Searching(t, state[name := OnStack], stack + [name], finished)
  {
    var s := stack + [name];
    assert forall n :: n in s <==> n in stack || n == name;
    forall i
      ensures Link(t, s, i)
    {
      assert Link(t, stack, i);
    }
  }

  lemma Pop(t: Tables, state: map<string, State>, stack: seq<string>, finished: seq<string>, name: string)
    requires Searching(t, state, stack + [name], finished)
    requires name !in stack && name !in finished
    ensures Searching(t, state[name := Done], stack, finished + [name])
  {
    var s := stack + [name];
    assert forall n :: n in s <==> n in stack || n == name;
    assert forall n :: n in finished + [name] <==> n in finished || n == name;
    forall i
      ensures Link(t, stack, i)
    {
      assert Link(t, s, i);
    }
  }

  /** The path of a cycle: the stack from the first place of the name on, and the name again. */
  lemma CyclePath(t: Tables, stack: seq<string>, name: string, start: nat)
    requires Chain(t, stack) && start < |stack| && stack[start] == name
    requires ParentOf(t, stack[|stack| - 1], name)
    ensures ClosedWalk(t, stack[start..] + [name])
  {
    var path := stack[start..] + [name];
    forall i
      ensures Link(t, path, i)
    {
      assert Link(t, stack, start + i);
    }
  }

  lemma {:induction false} InheritedSame(byName: Memo, byName': Memo, parents: seq<string>)
    requires forall p :: p in parents ==> p in byName && p in byName' && byName'[p] == byName[p]
    ensures Inherited(byName, parents) == Inherited(byName', parents)
  {
    if parents != [] {
      InheritedSame(byName, byName', parents[..|parents| - 1]);
    }
  }

  lemma FinishOne(t: Tables, byName: Memo, past: map<string, Past>, finished: seq<string>, m: Merged, p: Past)
    requires Finished(t, byName, past, finished) && m.name !in finished
    requires Entry(t, byName[m.name := m], past[m.name := p], finished, m.name)
    ensures Finished(t, byName[m.name := m], past[m.name := p], finished + [m.name])
  {
    var byName', past', finished' := byName[m.name := m], past[m.name := p], finished + [m.name];
    forall i | 0 <= i < |finished'|
      ensures Entry(t, byName', past', finished'[..i], finished'[i])
    {
      if i < |finished| {
        var n := finished[i];
        assert Entry(t, byName, past, finished[..i], n);
        assert finished'[..i] == finished[..i];
        InheritedSame(byName, byName', byName[n].parents);
      } else {
        assert finished'[..i] == finished;
      }
    }
  }

  lemma ClashGrows(arrived: seq<Method>, m: Method, x: string)
    ensures Clash(arrived + [m], x) <==>
      Clash(arrived, x)
          || (m.name == x && exists a :: a in arrived && a.name == x && CanonicalMethodSig(a) != CanonicalMethodSig(m))
  {
  }

  /** What `keep` has collected: the methods kept, and by name the kept method and who brought it. */
  datatype Kept = Kept(methods: seq<Method>, ownerByName: map<string, Method>, ownerOfMethod: map<string, string>)

  ghost predicate KeptOf(k: Kept, arrived: seq<Method>)
  {
    && k.methods == FirstOfEach(arrived)
    && (forall n :: n in k.ownerByName <==> HasName(arrived, n))
    && (forall n :: n in k.ownerByName ==>
          n in k.ownerOfMethod && k.ownerByName[n].name == n && k.ownerByName[n] in arrived)
  }

  /** after is before with conflicts added. */
  ghost predicate OnlyConflicts(before: seq<Diagnostic>, after: seq<Diagnostic>)
  {
    && (forall d :: d in before ==> d in after)
    && forall d :: d in after ==> d in before || d.Conflict?
  }

  /** The conflicts added are the clashes among the methods that have arrived at name. */
  ghost predicate NewConflicts(before: seq<Diagnostic>, after: seq<Diagnostic>, name: string, arrived: seq<Method>)
  {
    forall n, x {:trigger ReportsConflict(after, n, x)} ::
      ReportsConflict(after, n, x) <==> ReportsConflict(before, n, x) || (n == name && Clash(arrived, x))
  }

  ghost predicate Mismatch(k: Kept, mth: Method)
  {
    mth.name in k.ownerByName && CanonicalMethodSig(k.ownerByName[mth.name]) != CanonicalMethodSig(mth)
  }

  /** Between tidy methods, a mismatch is a difference in the types. */
  lemma MismatchIff(k: Kept, mth: Method)
    ensures mth.name in k.ownerByName ==> var prev := k.ownerByName[mth.name];
              && (SameMethod(prev, mth) ==> !Mismatch(k, mth))
              && (IsTidyMethod(prev) && IsTidyMethod(mth) && !SameMethod(prev, mth) ==> Mismatch(k, mth))
  {
    if mth.name in k.ownerByName {
      var prev := k.ownerByName[mth.name];
      if SameMethod(prev, mth) {
        SameMethodSignature(prev, mth);
      } else if IsTidyMethod(prev) && IsTidyMethod(mth) {
        SignatureIff(prev, mth);
      }
    }
  }

  lemma ClashMismatch(k: Kept, arrived: seq<Method>, mth: Method, x: string)
    requires KeptOf(k, arrived)
    ensures Clash(arrived + [mth], x) <==> Clash(arrived, x) || (mth.name == x && Mismatch(k, mth))
  {
    ClashGrows(arrived, mth, x);
    if mth.name == x && exists a :: a in arrived && a.name == x && CanonicalMethodSig(a) != CanonicalMethodSig(mth) {
      var a :| a in arrived && a.name == x && CanonicalMethodSig(a) != CanonicalMethodSig(mth);
      var i :| 0 <= i < |arrived| && arrived[i] == a;
      assert HasName(arrived, x);
      if !Mismatch(k, mth) {
        assert CanonicalMethodSig(a) != CanonicalMethodSig(k.ownerByName[x]);
      }
    }
  }

  lemma KeepOne(k: Kept, arrived: seq<Method>, mth: Method, owner: string)
    requires KeptOf(k, arrived)
    ensures KeptOf(if mth.name in k.ownerByName then k else
                     Kept(k.methods + [mth], k.ownerByName[mth.name := mth], k.ownerOfMethod[mth.name := owner]),
                   arrived + [mth])
  {
    var all := arrived + [mth];
    assert all[..|all| - 1] == arrived;
    FirstOfEachKeeps(arrived);
    forall n
      ensures HasName(all, n) <==> HasName(arrived, n) || mth.name == n
    {
      HasNameAppend(arrived, mth, n);
    }
  }

  lemma ConflictAdded(before: seq<Diagnostic>, d: Diagnostic)
    requires d.Conflict?
    ensures forall n, x ::
              ReportsConflict(before + [d], n, x) <==> ReportsConflict(before, n, x) || (n == d.name && x == d.mthName)
  {
    var after := before + [d];
    assert d in after;
    forall n, x
      ensures ReportsConflict(after, n, x) <==> ReportsConflict(before, n, x) || (n == d.name && x == d.mthName)
    {
      if e :| e in before && e.Conflict? && e.name == n && e.mthName == x {
        assert e in after;
      }
    }
  }

  // ---------------------------------------------------------------------------------------
  // Putting stretches of the search together

  /** What was finished stays as it was. */
  ghost predicate Grown(byName: Memo, past: map<string, Past>, finished: seq<string>,
                        byName': Memo, past': map<string, Past>, finished': seq<string>)
  {
    forall n {:trigger n in finished} :: n in finished ==>
      n in finished' && (n in byName ==> n in byName' && byName'[n] == byName[n])
          && (n in past ==> n in past' && past'[n] == past[n])
  }

  lemma UnknownCompose(t: Tables, r0: seq<Diagnostic>, r1: seq<Diagnostic>, r2: seq<Diagnostic>,
                       f0: seq<string>, f1: seq<string>, f2: seq<string>, open: string, refs: seq<string>)
    requires UnknownSince(t, r0, r1, f0, f1, open, refs)
    requires UnknownSince(t, r1, r2, f1, f2, "", [])
    requires (forall n :: n in f0 ==> n in f1) && (forall n :: n in f1 ==> n in f2)
    ensures UnknownSince(t, r0, r2, f0, f2, open, refs)
  {
    forall n, r
      ensures UnknownParent(n, r) in r2 <==>
        || UnknownParent(n, r) in r0
        || (n in f2 && n !in f0 && n in t.decls && r in t.decls[n].implements && Lookup(t, r).None?)
        || (n == open && r in refs && Lookup(t, r).None?)
    {
      assert UnknownParent(n, r) in r1 || UnknownParent(n, r) !in r1;
    }
  }

  lemma ConflictsCompose(p1: map<string, Past>, p2: map<string, Past>, r0: seq<Diagnostic>, r1: seq<Diagnostic>,
                         r2: seq<Diagnostic>, f0: seq<string>, f1: seq<string>, f2: seq<string>, open: string,
                         arrived: seq<Method>)
    requires ConflictsSince(p1, r0, r1, f0, f1, open, arrived)
    requires ConflictsSince(p2, r1, r2, f1, f2, "", [])
    requires (forall n :: n in f0 ==> n in f1)
        && (forall n :: n in f1 ==> n in f2 && n in p1 && n in p2 && p1[n] == p2[n])
    ensures ConflictsSince(p2, r0, r2, f0, f2, open, arrived)
  {
    forall n, x
      ensures ReportsConflict(r2, n, x) <==>
        || ReportsConflict(r0, n, x)
        || (n in f2 && n !in f0 && n in p2 && Clash(p2[n].arrived, x))
        || (n == open && Clash(arrived, x))
    {
      assert ReportsConflict(r1, n, x) || !ReportsConflict(r1, n, x);
    }
  }

  lemma UnknownAdded(t: Tables, before: seq<Diagnostic>, results: seq<Diagnostic>, was: seq<string>,
                     finished: seq<string>, open: string, refs: seq<string>, i: nat)
    requires i < |refs|
    requires UnknownSince(t, before, results, was, finished, open, refs[..i])
    ensures UnknownSince(t, before,
                         if Lookup(t, refs[i]).None? then results + [UnknownParent(open, refs[i])] else results,
                         was, finished, open, refs[..i + 1])
  {
    assert refs[..i + 1] == refs[..i] + [refs[i]];
  }

  lemma UnknownClosed(t: Tables, before: seq<Diagnostic>, results: seq<Diagnostic>, was: seq<string>,
                      finished: seq<string>, open: string)
    requires open in t.decls && open !in was
    requires UnknownSince(t, before, results, was, finished, open, t.decls[open].implements)
    ensures UnknownSince(t, before, results, was, finished + [open], "", [])
  {
  }

  lemma ConflictsClosed(past: map<string, Past>, p: Past, before: seq<Diagnostic>, results: seq<Diagnostic>,
                        was: seq<string>, finished: seq<string>, open: string)
    requires open !in was && open !in finished
    requires ConflictsSince(past, before, results, was, finished, open, p.arrived)
    ensures ConflictsSince(past[open := p], before, results, was, finished + [open], "", [])
  {
  }

  lemma CyclesAfter(t: Tables, past: map<string, Past>, before: seq<Diagnostic>, after: seq<Diagnostic>)
    requires CyclesReported(t, past, before)
    requires forall d :: d in before ==> d in after
    requires forall d :: d in after && d.MergeCycle? ==> d in before || ClosedWalk(t, d.path)
    ensures CyclesReported(t, past, after)
  {
    forall n, p | n in past && n in t.decls && p in past[n].stack && p in Looked(t, t.decls[n].implements)
      ensures ReportsEdge(after, n, p)
    {
      EdgeStays(before, after, n, p);
    }
  }

  lemma EdgeStays(before: seq<Diagnostic>, after: seq<Diagnostic>, n: string, p: string)
    requires (forall d :: d in before ==> d in after) && ReportsEdge(before, n, p)
    ensures ReportsEdge(after, n, p)
  {
    var d :| d in before && d.MergeCycle? && |d.path| > 1 && d.path[|d.path| - 2] == n && d.path[|d.path| - 1] == p;
    assert d in after;
  }

  lemma MinusStep(t: Tables, refs: seq<string>, i: nat, cut: set<string>)
    requires i < |refs|
    ensures Lookup(t, refs[i]).None? ==> Looked(t, refs[..i + 1]) == Looked(t, refs[..i])
    ensures Lookup(t, refs[i]).Some? ==> var p := Lookup(t, refs[i]).value;
      && Looked(t, refs[..i + 1]) == Looked(t, refs[..i]) + [p]
      && Minus(Looked(t, refs[..i + 1]), cut) == Minus(Looked(t, refs[..i]), cut) + if p in cut then [] else [p]
  {
    LookedStep(t, refs, i);
  }

  lemma InheritedStep(byName: Memo, parents: seq<string>, p: string)
    requires (forall q :: q in parents ==> q in byName) && p in byName
    ensures Inherited(byName, parents + [p]) == Inherited(byName, parents) + byName[p].methods
  {
    var ps := parents + [p];
    assert ps[..|ps| - 1] == parents;
  }

  lemma LookupIsParent(t: Tables, name: string, i: nat)
    requires Sound(t) && name in t.decls && i < |t.decls[name].implements|
    requires Lookup(t, t.decls[name].implements[i]).Some?
    ensures ParentOf(t, name, Lookup(t, t.decls[name].implements[i]).value)
  {
    LookedMember(t, t.decls[name].implements);
  }

  /** A diagnostic of another kind changes neither the cycles nor the conflicts. */
  lemma OtherAdded(t: Tables, past: map<string, Past>, before: seq<Diagnostic>, d: Diagnostic)
    requires CyclesReported(t, past, before) && d.UnknownParent?
    ensures CyclesReported(t, past, before + [d])
    ensures forall n, p :: ReportsEdge(before, n, p) ==> ReportsEdge(before + [d], n, p)
    ensures forall n, x :: ReportsConflict(before + [d], n, x) <==> ReportsConflict(before, n, x)
  {
    CyclesAfter(t, past, before, before + [d]);
    forall n, p | ReportsEdge(before, n, p)
      ensures ReportsEdge(before + [d], n, p)
    {
      EdgeStays(before, before + [d], n, p);
    }
    forall n, x
      ensures ReportsConflict(before + [d], n, x) <==> ReportsConflict(before, n, x)
    {
      if e :| e in before && e.Conflict? && e.name == n && e.mthName == x {
        assert e in before + [d];
      }
    }
  }

  /** Closing an interface whose methods have all arrived. */
  lemma Closing(t: Tables, byName: Memo, past: map<string, Past>, finished: seq<string>, results: seq<Diagnostic>,
                m: Merged, p: Past)
    requires Sound(t) && m.name in t.decls && m.decl == t.decls[m.name] && m.name !in finished
    requires Finished(t, byName, past, finished) && CyclesReported(t, past, results)
    requires m.parents == Minus(Looked(t, m.decl.implements), p.stack)
    requires forall q :: q in m.parents ==> q in finished && q in byName
    requires p.arrived == Inherited(byName, m.parents) + OwnMethods(m.decl.methods)
    requires m.methods == FirstOfEach(p.arrived)
    requires forall q :: q in Looked(t, m.decl.implements) && q in p.stack ==> ReportsEdge(results, m.name, q)
    ensures Finished(t, byName[m.name := m], past[m.name := p], finished + [m.name])
    ensures CyclesReported(t, past[m.name := p], results)
  {
    InheritedSame(byName, byName[m.name := m], m.parents);
    FinishOne(t, byName, past, finished, m, p);
  }

  lemma OwnStep(own: seq<Method>, slots: seq<Option<Method>>, i: nat)
    requires i < |slots|
    ensures own + OwnMethods(slots[i..])
         == own + (if slots[i].Some? then [slots[i].value] else []) + OwnMethods(slots[i + 1..])
  {
    assert slots[i..][1..] == slots[i + 1..];
  }

  lemma ClashPart(a: seq<Method>, b: seq<Method>, x: string)
    ensures Clash(a, x) ==> Clash(a + b, x)
  {
  }

  // ---------------------------------------------------------------------------------------
  // The parents of an open interface, one by one

  /** What the resolver holds at some moment. */
  datatype View = View(byName: Memo, past: map<string, Past>, finished: seq<string>, results: seq<Diagnostic>,
                       stack: seq<string>)

  /** The parents are those referred to that are not on the stack, and all are finished. */
  ghost predicate ParentsSoFar(t: Tables, v: View, refs: seq<string>, parents: seq<string>)
  {
    && parents == Minus(Looked(t, refs), Elements(v.stack))
    && forall p :: p in parents ==> p in v.finished && p in v.byName
  }

  /** The edges from name back to the stack are reported. */
  ghost predicate EdgesSoFar(looked: seq<string>, stack: seq<string>, results: seq<Diagnostic>, name: string)
  {
    forall p :: p in looked && p in stack ==> ReportsEdge(results, name, p)
  }

  /** Since the moment `before`, at which name was opened, the references in refs have been dealt with. */
  ghost predicate Merging(t: Tables, v: View, before: View, name: string, refs: seq<string>, parents: seq<string>,
                          k: Kept)
  {
    && v.stack == before.stack
    && Grown(before.byName, before.past, before.finished, v.byName, v.past, v.finished)
    && (forall d :: d in before.results ==> d in v.results)
    && ParentsSoFar(t, v, refs, parents)
    && EdgesSoFar(Looked(t, refs), v.stack, v.results, name)
    && KeptOf(k, Inherited(v.byName, parents))
    && UnknownSince(t, before.results, v.results, before.finished, v.finished, name, refs)
    && ConflictsSince(v.past, before.results, v.results, before.finished, v.finished, name,
                      Inherited(v.byName, parents))
  }

  lemma MergingStart(t: Tables, v: View, name: string)
    ensures Merging(t, v, v, name, [], [], Kept([], map[], map[]))
  {
  }

  lemma GrownCompose(a: View, b: View, c: View)
    requires Grown(a.byName, a.past, a.finished, b.byName, b.past, b.finished)
    requires Grown(b.byName, b.past, b.finished, c.byName, c.past, c.finished)
    ensures Grown(a.byName, a.past, a.finished, c.byName, c.past, c.finished)
  {
  }

  /** A stretch of the search between two moments at which the same interfaces are open. */
  ghost predicate Advanced(t: Tables, v: View, v': View)
  {
    && v'.stack == v.stack
    && Grown(v.byName, v.past, v.finished, v'.byName, v'.past, v'.finished)
    && (forall d :: d in v.results ==> d in v'.results)
    && UnknownSince(t, v.results, v'.results, v.finished, v'.finished, "", [])
    && ConflictsSince(v'.past, v.results, v'.results, v.finished, v'.finished, "", [])
  }

  lemma MergingUnknown(t: Tables, v: View, before: View, name: string, refs: seq<string>, i: nat,
                       parents: seq<string>, k: Kept)
    requires i < |refs| && Lookup(t, refs[i]).None? && CyclesReported(t, v.past, v.results)
    requires Merging(t, v, before, name, refs[..i], parents, k)
    ensures Merging(t, v.(results := v.results + [UnknownParent(name, refs[i])]), before, name, refs[..i + 1],
                    parents, k)
  {
    MinusStep(t, refs, i, Elements(v.stack));
    UnknownAdded(t, before.results, v.results, before.finished, v.finished, name, refs, i);
    OtherAdded(t, v.past, v.results, UnknownParent(name, refs[i]));
    EdgesStay(v.results, v.results + [UnknownParent(name, refs[i])], name, Looked(t, refs[..i]), v.stack);
  }

  /** Resolving another interface in between changes nothing for the open one. */
  lemma MergingKeeps(t: Tables, v: View, v': View, before: View, name: string, refs: seq<string>,
                     parents: seq<string>, k: Kept)
    requires Merging(t, v, before, name, refs, parents, k)
    requires forall n :: n in v.finished ==> n in v.past
    requires Advanced(t, v, v')
    ensures Merging(t, v', before, name, refs, parents, k)
  {
    InheritedSame(v.byName, v'.byName, parents);
    GrownCompose(before, v, v');
    UnknownCompose(t, before.results, v.results, v'.results, before.finished, v.finished, v'.finished, name, refs);
    ConflictsCompose(v.past, v'.past, before.results, v.results, v'.results, before.finished, v.finished, v'.finished,
                     name, Inherited(v.byName, parents));
    EdgesStay(v.results, v'.results, name, Looked(t, refs), v.stack);
  }

  /** full is on the stack, and the edge that leads back to it is reported. */
  ghost predicate Skipped(v: View, full: string)
  {
    v.stack != [] && full in v.stack && ReportsEdge(v.results, v.stack[|v.stack| - 1], full)
  }

  lemma MergingSkips(t: Tables, v: View, before: View, name: string, refs: seq<string>, i: nat, parents: seq<string>,
                     k: Kept)
    requires i < |refs| && Lookup(t, refs[i]).Some? && Skipped(v, Lookup(t, refs[i]).value)
    requires v.stack[|v.stack| - 1] == name
    requires Merging(t, v, before, name, refs[..i], parents, k)
    ensures Merging(t, v, before, name, refs[..i + 1], parents, k)
  {
    MinusStep(t, refs, i, Elements(v.stack));
    UnknownAdded(t, before.results, v.results, before.finished, v.finished, name, refs, i);
  }

  lemma MergingAdds(t: Tables, v: View, v': View, before: View, name: string, refs: seq<string>, i: nat,
                    parents: seq<string>, k: Kept, k': Kept)
    requires i < |refs| && Lookup(t, refs[i]).Some?
    requires Merging(t, v, before, name, refs[..i], parents, k)
    requires var full := Lookup(t, refs[i]).value;
      && full !in v.stack && full in v.finished && full in v.byName
      && KeptOf(k', Inherited(v.byName, parents) + v.byName[full].methods)
      && NewConflicts(v.results, v'.results, name, Inherited(v.byName, parents) + v.byName[full].methods)
    requires v' == v.(results := v'.results) && OnlyConflicts(v.results, v'.results)
    ensures Merging(t, v', before, name, refs[..i + 1], parents + [Lookup(t, refs[i]).value], k')
  {
    var full := Lookup(t, refs[i]).value;
    AddingParent(t, v, v', refs, i, parents);
    InheritedStep(v.byName, parents, full);
    AddingUnknown(t, v, v', before, name, refs, i);
    ConflictsMore(v.past, before.results, v.results, v'.results, before.finished, v.finished, name,
                  Inherited(v.byName, parents), v.byName[full].methods);
    AddingEdges(t, v, v', name, refs, i);
  }

  lemma AddingParent(t: Tables, v: View, v': View, refs: seq<string>, i: nat, parents: seq<string>)
    requires i < |refs| && Lookup(t, refs[i]).Some? && ParentsSoFar(t, v, refs[..i], parents)
    requires v' == v.(results := v'.results)
    requires var full := Lookup(t, refs[i]).value; full !in v.stack && full in v.finished && full in v.byName
    ensures ParentsSoFar(t, v', refs[..i + 1], parents + [Lookup(t, refs[i]).value])
  {
    MinusStep(t, refs, i, Elements(v.stack));
  }

  lemma AddingEdges(t: Tables, v: View, v': View, name: string, refs: seq<string>, i: nat)
    requires i < |refs| && Lookup(t, refs[i]).Some? && Lookup(t, refs[i]).value !in v.stack
    requires EdgesSoFar(Looked(t, refs[..i]), v.stack, v.results, name) && OnlyConflicts(v.results, v'.results)
    ensures EdgesSoFar(Looked(t, refs[..i + 1]), v.stack, v'.results, name)
  {
    LookedStep(t, refs, i);
    EdgesStay(v.results, v'.results, name, Looked(t, refs[..i]), v.stack);
  }

  lemma AddingUnknown(t: Tables, v: View, v': View, before: View, name: string, refs: seq<string>, i: nat)
    requires i < |refs| && Lookup(t, refs[i]).Some? && OnlyConflicts(v.results, v'.results)
    requires UnknownSince(t, before.results, v.results, before.finished, v.finished, name, refs[..i])
    ensures UnknownSince(t, before.results, v'.results, before.finished, v.finished, name, refs[..i + 1])
  {
    UnknownAdded(t, before.results, v.results, before.finished, v.finished, name, refs, i);
    UnknownUnmoved(t, before.results, v.results, v'.results, before.finished, v.finished, name, refs[..i + 1]);
  }

  lemma EdgesStay(r: seq<Diagnostic>, r': seq<Diagnostic>, name: string, looked: seq<string>, stack: seq<string>)
    requires (forall d :: d in r ==> d in r') && EdgesSoFar(looked, stack, r, name)
    ensures EdgesSoFar(looked, stack, r', name)
  {
    forall p | p in looked && p in stack
      ensures ReportsEdge(r', name, p)
    {
      EdgeStays(r, r', name, p);
    }
  }

  lemma UnknownUnmoved(t: Tables, before: seq<Diagnostic>, r: seq<Diagnostic>, r': seq<Diagnostic>, was: seq<string>,
                       finished: seq<string>, open: string, refs: seq<string>)
    requires UnknownSince(t, before, r, was, finished, open, refs) && OnlyConflicts(r, r')
    ensures UnknownSince(t, before, r', was, finished, open, refs)
  {
    forall n, x
      ensures UnknownParent(n, x) in r' <==> UnknownParent(n, x) in r
    {
    }
  }

  lemma ConflictsMore(past: map<string, Past>, before: seq<Diagnostic>, r: seq<Diagnostic>, r': seq<Diagnostic>,
                      was: seq<string>, finished: seq<string>, open: string, a: seq<Method>, b: seq<Method>)
    requires ConflictsSince(past, before, r, was, finished, open, a)
    requires NewConflicts(r, r', open, a + b)
    ensures ConflictsSince(past, before, r', was, finished, open, a + b)
  {
    forall x
      ensures Clash(a, x) ==> Clash(a + b, x)
    {
      ClashPart(a, b, x);
    }
  }

  lemma DoneIsDeclared(t: Tables, byName: Memo, past: map<string, Past>, finished: seq<string>, name: string)
    requires Finished(t, byName, past, finished) && name in byName
    ensures name in t.decls && name in finished
  {
    var i :| 0 <= i < |finished| && finished[i] == name;
    assert Entry(t, byName, past, finished[..i], finished[i]);
  }

  lemma Sealed(t: Tables, v: View, before: View, after: View, m: Merged, p: Past)
    requires Grown(before.byName, before.past, before.finished, v.byName, v.past, v.finished)
    requires m.name !in v.finished && (forall d :: d in before.results ==> d in after.results)
    requires after.byName == v.byName[m.name := m] && after.past == v.past[m.name := p]
        && after.finished == v.finished + [m.name]
    requires UnknownSince(t, before.results, after.results, before.finished, after.finished, "", [])
    requires ConflictsSince(after.past, before.results, after.results, before.finished, after.finished, "", [])
    ensures Advanced(t, before.(stack := after.stack), after)
  {
  }

  /** The interface's own methods have arrived as well: everything that is reported since it was
      opened is accounted for once it counts as finished. */
  lemma AllArrived(t: Tables, v: View, v': View, before: View, name: string, decl: Decl, parents: seq<string>,
                   k: Kept, p: Past)
    requires Merging(t, v, before, name, decl.implements, parents, k)
    requires name in t.decls && decl == t.decls[name] && name !in before.finished && name !in v.finished
    requires v' == v.(results := v'.results) && OnlyConflicts(v.results, v'.results)
        && CyclesReported(t, v.past, v.results)
    requires p == Past(Elements(v.stack), Inherited(v.byName, parents) + OwnMethods(decl.methods))
    requires NewConflicts(v.results, v'.results, name, p.arrived)
    ensures CyclesReported(t, v'.past, v'.results)
    ensures forall q :: q in Looked(t, decl.implements) && q in p.stack ==> ReportsEdge(v'.results, name, q)
    ensures UnknownSince(t, before.results, v'.results, before.finished, v'.finished + [name], "", [])
    ensures ConflictsSince(v'.past[name := p], before.results, v'.results, before.finished, v'.finished + [name],
                           "", [])
  {
    UnknownUnmoved(t, before.results, v.results, v'.results, before.finished, v.finished, name, decl.implements);
    ConflictsMore(v.past, before.results, v.results, v'.results, before.finished, v.finished, name,
                  Inherited(v.byName, parents), OwnMethods(decl.methods));
    UnknownClosed(t, before.results, v'.results, before.finished, v'.finished, name);
    ConflictsClosed(v'.past, p, before.results, v'.results, before.finished, v'.finished, name);
    CyclesAfter(t, v.past, v.results, v'.results);
    EdgesStay(v.results, v'.results, name, Looked(t, decl.implements), v.stack);
  }

  // ---------------------------------------------------------------------------------------
  // The resolver

  class IfaceResolver {
    const t: Tables
    var byName: Memo
    var state: map<string, State>
    var stack: seq<string>
    var results: seq<Diagnostic>
    ghost var finished: seq<string>
    ghost var past: map<string, Past>

    constructor (t: Tables)
      requires Sound(t)
      ensures this.t == t && Valid()
      ensures stack == [] && results == [] && finished == [] && byName == map[]
    {
      this.t := t;
      byName, state, stack, results := map[], map[], [], [];
      finished, past := [], map[];
    }

    ghost predicate Valid()
      reads this
    {
      && Searching(t, state, stack, finished)
      && Finished(t, byName, past, finished)
      && CyclesReported(t, past, results)
    }

    ghost function Unseen(): set<string>
      reads this
    {
      set n | n in t.decls && StateOf(state, n) == Unvisited
    }

    /** keep: a method that arrives is kept if it is the first of its name, dropped if it agrees
        with the first, and reported otherwise. */
    method Keep(name: string, k: Kept, mth: Method, owner: string, ghost arrived: seq<Method>) returns (k': Kept)
      requires KeptOf(k, arrived)
      requires forall x :: Clash(arrived, x) ==> ReportsConflict(results, name, x)
      modifies this`results
      ensures k' == if mth.name in k.ownerByName then k
                    else Kept(k.methods + [mth], k.ownerByName[mth.name := mth], k.ownerOfMethod[mth.name := owner])
      ensures results == old(results)
          + if Mismatch(k, mth) then [Conflict(name, mth.name, owner, k.ownerOfMethod[mth.name])] else []
      ensures mth.name in k.ownerByName ==> var prev := k.ownerByName[mth.name];
                && (SameMethod(prev, mth) ==> results == old(results))
                && (IsTidyMethod(prev) && IsTidyMethod(mth) && !SameMethod(prev, mth) ==> results != old(results))
      ensures KeptOf(k', arrived + [mth])
      ensures OnlyConflicts(old(results), results)
      ensures NewConflicts(old(results), results, name, arrived + [mth])
    {
      KeepOne(k, arrived, mth, owner);
      MismatchIff(k, mth);
      forall x
        ensures Clash(arrived + [mth], x) <==> Clash(arrived, x) || (mth.name == x && Mismatch(k, mth))
      {
        ClashMismatch(k, arrived, mth, x);
      }
      if mth.name !in k.ownerByName {
        return Kept(k.methods + [mth], k.ownerByName[mth.name := mth], k.ownerOfMethod[mth.name := owner]);
      }
      var prev := k.ownerByName[mth.name];
      if CanonicalMethodSig(prev) == CanonicalMethodSig(mth) {
        return k;
      }
      var d := Conflict(name, mth.name, owner, k.ownerOfMethod[mth.name]);
      results := results + [d];
      ConflictAdded(old(results), d);
      return k;
    }

    method KeepAll(name: string, k: Kept, mths: seq<Method>, owner: string, ghost arrived: seq<Method>)
      returns (k': Kept)
      requires KeptOf(k, arrived)
      requires forall x :: Clash(arrived, x) ==> ReportsConflict(results, name, x)
      modifies this`results
      ensures KeptOf(k', arrived + mths)
      ensures OnlyConflicts(old(results), results)
      ensures NewConflicts(old(results), results, name, arrived + mths)
    {
      k' := k;
      assert arrived + mths[..0] == arrived;
      for i := 0 to |mths|
        invariant KeptOf(k', arrived + mths[..i])
        invariant OnlyConflicts(old(results), results)
        invariant NewConflicts(old(results), results, name, arrived + mths[..i])
      {
        assert arrived + mths[..i + 1] == arrived + mths[..i] + [mths[i]];
        forall x
          ensures Clash(arrived + mths[..i], x) ==> Clash(arrived + mths[..i + 1], x)
        {
          ClashPart(arrived + mths[..i], [mths[i]], x);
        }
        k' := Keep(name, k', mths[i], owner, arrived + mths[..i]);
      }
      assert mths[..|mths|] == mths;
    }

    method KeepOwn(name: string, k: Kept, slots: seq<Option<Method>>, ghost arrived: seq<Method>) returns (k': Kept)
      requires KeptOf(k, arrived)
      requires forall x :: Clash(arrived, x) ==> ReportsConflict(results, name, x)
      modifies this`results
      ensures KeptOf(k', arrived + OwnMethods(slots))
      ensures OnlyConflicts(old(results), results)
      ensures NewConflicts(old(results), results, name, arrived + OwnMethods(slots))
    {
      k' := k;
      ghost var own: seq<Method> := [];
      assert arrived + own == arrived;
      for i := 0 to |slots|
        invariant own + OwnMethods(slots[i..]) == OwnMethods(slots)
        invariant KeptOf(k', arrived + own)
        invariant OnlyConflicts(old(results), results)
        invariant NewConflicts(old(results), results, name, arrived + own)
      {
        OwnStep(own, slots, i);
        if slots[i].Some? {
          var mth := slots[i].value;
          assert arrived + (own + [mth]) == arrived + own + [mth];
          forall x
            ensures Clash(arrived + own, x) ==> Clash(arrived + own + [mth], x)
          {
            ClashPart(arrived + own, [mth], x);
          }
          k' := Keep(name, k', mth, name, arrived + own);
          own := own + [mth];
        }
      }
      assert slots[|slots|..] == [];
      assert own == OwnMethods(slots);
    }

    method ReportUnknownParent(name: string, parent: string)
      modifies this`results
      ensures results == old(results) + [UnknownParent(name, parent)]
    {
      results := results + [UnknownParent(name, parent)];
    }

    method ReportCycle(name: string)
      requires Chain(t, stack) && name in stack && ParentOf(t, stack[|stack| - 1], name)
      modifies this`results
      ensures exists path :: ClosedWalk(t, path) && results == old(results) + [MergeCycle(path)]
      ensures ReportsEdge(results, stack[|stack| - 1], name)
    {
      var start := 0;
      while stack[start] != name
        invariant 0 <= start < |stack|
        invariant name in stack[start..]
        decreases |stack| - start
      {
        start := start + 1;
      }
      CyclePath(t, stack, name, start);
      var path := stack[start..] + [name];
      assert path[|path| - 2] == stack[|stack| - 1];
      results := results + [MergeCycle(path)];
      assert MergeCycle(path) in results;
    }

    /** resolve: the result of an interface, or none when it is on the stack or not declared. */
    method Resolve(name: string) returns (r: Option<Merged>)
      requires Valid()
      requires name in t.decls && stack != [] ==> ParentOf(t, stack[|stack| - 1], name)
      modifies this
      ensures Valid() && Advanced(t, old(Now()), Now())
      ensures Unseen() <= old(Unseen())
      ensures r.None? <==> name !in t.decls || name in stack
      ensures r.None? && name in t.decls ==> Skipped(Now(), name)
      ensures r.Some? ==> name in finished && name in byName && r.value == byName[name]
      decreases Unseen(), 1
    {
      if name in byName {
        DoneIsDeclared(t, byName, past, finished, name);
        return Some(byName[name]);
      }
      if StateOf(state, name) == OnStack {
        ReportCycle(name);
        CyclesAfter(t, past, old(results), results);
        return None;
      }
      if name !in t.decls {
        return None;
      }
      var m := Open(name);
      r := Some(m);
    }

    method Open(name: string) returns (m: Merged)
      requires Valid() && name in t.decls && StateOf(state, name) == Unvisited
      requires stack != [] ==> ParentOf(t, stack[|stack| - 1], name)
      modifies this
      ensures Valid() && Advanced(t, old(Now()), Now())
      ensures Unseen() <= old(Unseen())
      ensures name in finished && name in byName && m == byName[name]
      decreases Unseen(), 0
    {
      var decl := t.decls[name];
      Push(t, state, stack, finished, name);
      assert name in Unseen();
      state := state[name := OnStack];
      stack := stack + [name];
      assert name !in Unseen();
      ghost var before := Now();
      var k, parents := MergeParents(name, decl);
      m := Close(name, decl, before, k, parents);
      assert before.stack[..|before.stack| - 1] == old(stack);
    }

    /** The interface's own methods after those of its parents; then it is done. */
    method Close(name: string, decl: Decl, ghost before: View, k: Kept, parents: seq<string>) returns (m: Merged)
      requires Valid() && stack != [] && stack[|stack| - 1] == name && name !in stack[..|stack| - 1]
      requires name in t.decls && decl == t.decls[name] && name !in before.finished
      requires Merging(t, Now(), before, name, decl.implements, parents, k)
      modifies this
      ensures Valid()
      ensures Advanced(t, before.(stack := stack), Now()) && stack == before.stack[..|before.stack| - 1]
      ensures Unseen() <= old(Unseen())
      ensures name in finished && name in byName && m == byName[name]
    {
      ghost var inherited, was := Inherited(byName, parents), Now();
      var k' := KeepOwn(name, k, decl.methods, inherited);
      ghost var p := Past(Elements(stack), inherited + OwnMethods(decl.methods));
      m := Merged(name, decl, k'.methods, parents);
      AllArrived(t, was, Now(), before, name, decl, parents, k, p);
      Closing(t, byName, past, finished, results, m, p);
      Seal(m, p);
      Sealed(t, was, before, Now(), m, p);
    }

    /** The open interface is finished. */
    method Seal(m: Merged, ghost p: Past)
      requires Searching(t, state, stack, finished)
      requires stack != [] && stack[|stack| - 1] == m.name && m.name !in stack[..|stack| - 1]
      requires Finished(t, byName[m.name := m], past[m.name := p], finished + [m.name])
      requires CyclesReported(t, past[m.name := p], results)
      modifies this`stack, this`state, this`byName, this`finished, this`past
      ensures Valid()
      ensures Now() == View(old(byName)[m.name := m], old(past)[m.name := p], old(finished) + [m.name], results,
                            old(stack)[..|old(stack)| - 1])
      ensures Unseen() <= old(Unseen())
    {
      var above := stack[..|stack| - 1];
      assert stack == above + [m.name];
      Pop(t, state, above, finished, m.name);
      stack := above;
      state := state[m.name := Done];
      byName := byName[m.name := m];
      finished, past := finished + [m.name], past[m.name := p];
    }

    /** The parents first, in the order in which they are written. */
    method MergeParents(name: string, decl: Decl) returns (k: Kept, parents: seq<string>)
      requires Valid()
      requires stack != [] && stack[|stack| - 1] == name && name in t.decls && decl == t.decls[name]
      modifies this
      ensures Valid() && Unseen() <= old(Unseen())
      ensures Merging(t, Now(), old(Now()), name, decl.implements, parents, k)
      decreases Unseen(), 4
    {
      k, parents := Kept([], map[], map[]), [];
      var refs := decl.implements;
      ghost var before := Now();
      MergingStart(t, before, name);
      assert refs[..0] == [];
      for i := 0 to |refs|
        invariant Valid() && Unseen() <= old(Unseen())
        invariant Merging(t, Now(), before, name, refs[..i], parents, k)
      {
        k, parents := MergeParent(name, refs, i, before, k, parents);
      }
      assert refs[..|refs|] == refs;
    }

    method MergeParent(name: string, refs: seq<string>, i: nat, ghost before: View, k: Kept, parents: seq<string>)
      returns (k': Kept, parents': seq<string>)
      requires Valid() && stack != [] && stack[|stack| - 1] == name
      requires name in t.decls && refs == t.decls[name].implements && i < |refs|
      requires Merging(t, Now(), before, name, refs[..i], parents, k)
      modifies this
      ensures Valid() && Unseen() <= old(Unseen())
      ensures Merging(t, Now(), before, name, refs[..i + 1], parents', k')
      decreases Unseen(), 3
    {
      var look := Lookup(t, refs[i]);
      if look.None? {
        MissParent(name, refs, i, before, k, parents);
        return k, parents;
      }
      var pm := ResolveParent(name, refs, i, before, k, parents);
      if pm.None? {
        MergingSkips(t, Now(), before, name, refs, i, parents, k);
        return k, parents;
      }
      k', parents' := AddParent(name, refs, i, before, k, parents, pm.value);
    }

    /** A reference that no lookup finds. */
    method MissParent(name: string, refs: seq<string>, i: nat, ghost before: View, ghost k: Kept,
                      ghost parents: seq<string>)
      requires Valid() && i < |refs| && Lookup(t, refs[i]).None?
      requires Merging(t, Now(), before, name, refs[..i], parents, k)
      modifies this`results
      ensures Valid()
      ensures Merging(t, Now(), before, name, refs[..i + 1], parents, k)
    {
      MergingUnknown(t, Now(), before, name, refs, i, parents, k);
      OtherAdded(t, past, results, UnknownParent(name, refs[i]));
      ReportUnknownParent(name, refs[i]);
    }

    method ResolveParent(name: string, refs: seq<string>, i: nat, ghost before: View, ghost k: Kept,
                         ghost parents: seq<string>) returns (pm: Option<Merged>)
      requires Valid() && stack != [] && stack[|stack| - 1] == name
      requires name in t.decls && refs == t.decls[name].implements && i < |refs| && Lookup(t, refs[i]).Some?
      requires Merging(t, Now(), before, name, refs[..i], parents, k)
      modifies this
      ensures Valid() && Unseen() <= old(Unseen())
      ensures Merging(t, Now(), before, name, refs[..i], parents, k)
      ensures var full := Lookup(t, refs[i]).value;
        if pm.None? then Skipped(Now(), full)
        else full !in stack && full in finished && full in byName && pm.value == byName[full]
      decreases Unseen(), 2
    {
      var full := Lookup(t, refs[i]).value;
      LookupIsParent(t, name, i);
      ghost var was := Now();
      assert forall n :: n in was.finished ==> n in was.past;
      pm := Resolve(full);
      MergingKeeps(t, was, Now(), before, name, refs[..i], parents, k);
    }

    method AddParent(name: string, refs: seq<string>, i: nat, ghost before: View, k: Kept, parents: seq<string>,
                     pm: Merged)
      returns (k': Kept, parents': seq<string>)
      requires Valid() && i < |refs| && Lookup(t, refs[i]).Some?
      requires var full := Lookup(t, refs[i]).value;
        full !in stack && full in finished && full in byName && byName[full] == pm
      requires Merging(t, Now(), before, name, refs[..i], parents, k)
      modifies this`results
      ensures Valid()
      ensures Merging(t, Now(), before, name, refs[..i + 1], parents', k')
    {
      var full := Lookup(t, refs[i]).value;
      ghost var was := Now();
      k' := KeepAll(name, k, pm.methods, full, Inherited(byName, parents));
      parents' := parents + [full];
      CyclesAfter(t, past, was.results, results);
      MergingAdds(t, was, Now(), before, name, refs, i, parents, k, k');
    }

    ghost function Now(): (v: View)
      reads this
      ensures v == View(byName, past, finished, results, stack)
    {
      View(byName, past, finished, results, stack)
    }
  }
}

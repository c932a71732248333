/** Exactly which names may be bound in forms that the pass over module constants overlooks. */
module ModuleConstsExact {
  import opened Wrappers
  import opened ModuleConsts
  import opened ModuleConstsProof

  // ---------------------------------------------------------------------------------------
  // Names that are bound out of the pass's sight

  /** The names bound at or below an expression, except to locals of the functions below. */
  function Bound(e: Expr): set<string> {
    match e
    case Op(_, es) => BoundAll(es)
    case Fixed(_, es) => BoundAll(es)
    case Call(f, args) => Bound(f) + BoundAll(args)
    case Cond(b, yes, no) => Bound(b) + Bound(yes) + Bound(no)
    case If(b, cons, alt) => Bound(b) + BoundBody(cons) + BoundBody(alt)
    case Match(e', arms) => Bound(e') + BoundArms(arms)
    case Assign(l, r) => (if l.Name? then {l.name} else {}) + Bound(l) + Bound(r)
    case _ => {}
  }

  function BoundOption(e: Option<Expr>): set<string> {
    if e.Some? then Bound(e.value) else {}
  }

  function BoundAll(es: seq<Expr>): set<string> {
    if es == [] then {} else Bound(es[0]) + BoundAll(es[1..])
  }

  function BoundArms(arms: seq<Arm>): set<string> {
    if arms == [] then {}
    else BoundAll(arms[0].heads) + Named(arms[0].binds) + BoundBody(arms[0].body) + BoundArms(arms[1..])
  }

  function BoundBody(ss: seq<Stmt>): set<string> {
    if ss == [] then {} else BoundIn(ss[0]) + BoundBody(ss[1..])
  }

  function BoundIn(s: Stmt): set<string>
    decreases s, 0
  {
    match s
    case Do(e) => Bound(e)
    case Let(x, e) => {x} + Bound(e)
    case Multi(xs, e) => Named(xs) + Bound(e)
    case Unwrap(x, e) => {x} + Bound(e)
    case Function(fn) => {fn.name} + Missed(fn)
    case Block(body) => BoundBody(body)
    case For(init, cond, update, iter, body) =>
      BoundBody(init) + BoundBody(update) + BoundBody(body) + BoundOption(cond)
        + (if iter.Some? then {iter.value.variable} + Bound(iter.value.source) else {})
    case Return(e) => BoundOption(e)
  }

  /** The names bound in a body, but for the bindings that the pass collects. */
  function MissedBody(ss: seq<Stmt>): set<string> {
    if ss == [] then {} else MissedIn(ss[0]) + MissedBody(ss[1..])
  }

  function MissedIn(s: Stmt): set<string>
    decreases s, 1
  {
    match s
    case Let(_, e) => Bound(e)
    case Function(fn) => {fn.name} + Missed(fn)
    case Block(body) => MissedBody(body)
    case For(init, cond, update, iter, body) =>
      (if |init| == 1 && init[0].Let? then Bound(init[0].e) else BoundBody(init))
        + BoundBody(update) + MissedBody(body) + BoundOption(cond)
        + (if iter.Some? then (if iter.value.variable == "" then {""} else {}) + Bound(iter.value.source) else {})
    case _ => BoundIn(s)
  }

  /** The names that a function binds without the pass taking them to be local. */
  function Missed(fn: Fn): set<string> {
    MissedBody(fn.body) - LocalsOf(fn, {})
  }

  /** The pass replaces none of the names where k are local. */
  ghost predicate Spared(xs: set<string>, c: Constants, k: set<string>) {
    forall x :: x in xs ==> !Replaced(x, c, k)
  }

  // ---------------------------------------------------------------------------------------
  // They are what has to be clear

  lemma {:induction false} SparedIsClear(e: Expr, c: Constants, k: set<string>)
    requires Spared(Bound(e), c, k)
    ensures Clear(e, c, k)
  {
    match e
    case Op(_, es) => SparedAll(es, c, k);
    case Fixed(_, es) => SparedAll(es, c, k);
    case Call(f, args) =>
      SparedIsClear(f, c, k);
      SparedAll(args, c, k);
    case Cond(b, yes, no) =>
      SparedIsClear(b, c, k);
      SparedIsClear(yes, c, k);
      SparedIsClear(no, c, k);
    case If(b, cons, alt) =>
      SparedIsClear(b, c, k);
      SparedBody(cons, c, k);
      SparedBody(alt, c, k);
    case Match(e', arms) =>
      SparedIsClear(e', c, k);
      SparedArms(arms, c, k);
    case Assign(l, r) =>
      SparedIsClear(l, c, k);
      SparedIsClear(r, c, k);
    case _ =>
  }

  lemma {:induction false} SparedOption(e: Option<Expr>, c: Constants, k: set<string>)
    requires Spared(BoundOption(e), c, k)
    ensures ClearOption(e, c, k)
  {
    if e.Some? {
      SparedIsClear(e.value, c, k);
    }
  }

  lemma {:induction false} SparedAll(es: seq<Expr>, c: Constants, k: set<string>)
    requires Spared(BoundAll(es), c, k)
    ensures ClearAll(es, c, k)
  {
    if es != [] {
      SparedIsClear(es[0], c, k);
      SparedAll(es[1..], c, k);
    }
  }

  lemma {:induction false} SparedArms(arms: seq<Arm>, c: Constants, k: set<string>)
    requires Spared(BoundArms(arms), c, k)
    ensures ClearArms(arms, c, k)
  {
    if arms != [] {
      SparedAll(arms[0].heads, c, k);
      SparedNames(arms[0].binds, c, k);
      SparedBody(arms[0].body, c, k);
      SparedArms(arms[1..], c, k);
    }
  }

  lemma SparedNames(xs: seq<string>, c: Constants, k: set<string>)
    requires Spared(Named(xs), c, k)
    ensures ClearNames(xs, c, k)
  {
    assert forall x :: x in xs ==> x in Named(xs);
  }

  lemma {:induction false} SparedBody(ss: seq<Stmt>, c: Constants, k: set<string>)
    requires Spared(BoundBody(ss), c, k)
    ensures ClearBody(ss, c, k)
  {
    if ss != [] {
      SparedStmt(ss[0], c, k);
      SparedBody(ss[1..], c, k);
    }
  }

  lemma {:induction false} SparedStmt(s: Stmt, c: Constants, k: set<string>)
    requires Spared(BoundIn(s), c, k)
    ensures ClearStmt(s, c, k)
    decreases s, 1
  {
    match s
    case Do(e) => SparedIsClear(e, c, k);
    case Let(x, e) => SparedIsClear(e, c, k);
    case Multi(xs, e) =>
      SparedNames(xs, c, k);
      SparedIsClear(e, c, k);
    case Unwrap(x, e) => SparedIsClear(e, c, k);
    case Function(fn) => SparedFn(fn, c, k);
    case Block(body) => SparedBody(body, c, k);
    case For(_, _, _, _, _) => SparedFor(s, c, k);
    case Return(e) => SparedOption(e, c, k);
  }

  lemma {:induction false} SparedFor(s: Stmt, c: Constants, k: set<string>)
    requires s.For? && Spared(BoundIn(s), c, k)
    ensures ClearStmt(s, c, k)
    decreases s, 0
  {
    SparedBody(s.init, c, k);
    SparedBody(s.update, c, k);
    SparedBody(s.body, c, k);
    SparedOption(s.cond, c, k);
    if s.iter.Some? {
      SparedIsClear(s.iter.value.source, c, k);
    }
  }

  /** The locals of a function are spared in it. */
  lemma {:induction false} SparedFn(fn: Fn, c: Constants, k: set<string>)
    requires Spared(Missed(fn), c, k)
    ensures ClearFn(fn, c, k)
  {
    SparedInside(fn, c, k);
    MissedIsClear(fn.body, c, LocalsOf(fn, k));
    CollectedNeedNoCheck(fn.body, c, LocalsOf(fn, k));
  }

  lemma SparedInside(fn: Fn, c: Constants, k: set<string>)
    requires Spared(Missed(fn), c, k)
    ensures Spared(MissedBody(fn.body), c, LocalsOf(fn, k))
  {
    forall x | x in MissedBody(fn.body)
      ensures !Replaced(x, c, LocalsOf(fn, k))
    {
      assert x in LocalsOf(fn, {}) ==> x in LocalsOf(fn, k);
      assert x !in LocalsOf(fn, {}) ==> x in Missed(fn);
    }
  }

  lemma {:induction false} MissedIsClear(ss: seq<Stmt>, c: Constants, k: set<string>)
    requires Spared(MissedBody(ss), c, k)
    ensures OverlookedAreClear(ss, c, k)
  {
    if ss != [] {
      MissedStmt(ss[0], c, k);
      MissedIsClear(ss[1..], c, k);
    }
  }

  lemma {:induction false} MissedStmt(s: Stmt, c: Constants, k: set<string>)
    requires Spared(MissedIn(s), c, k)
    ensures OverlookedIn(s, c, k)
    decreases s, 3
  {
    match s
    case Let(_, e) => SparedIsClear(e, c, k);
    case Function(fn) =>
      SparedInside(fn, c, k);
      MissedIsClear(fn.body, c, LocalsOf(fn, k));
    case Block(body) => MissedIsClear(body, c, k);
    case For(_, _, _, _, _) => MissedFor(s, c, k);
    case _ => SparedStmt(s, c, k);
  }

  lemma {:induction false} MissedFor(s: Stmt, c: Constants, k: set<string>)
    requires s.For? && Spared(MissedIn(s), c, k)
    ensures OverlookedIn(s, c, k)
    decreases s, 2
  {
    if |s.init| == 1 && s.init[0].Let? {
      SparedIsClear(s.init[0].e, c, k);
    } else {
      SparedBody(s.init, c, k);
    }
    SparedBody(s.update, c, k);
    MissedIsClear(s.body, c, k);
    SparedOption(s.cond, c, k);
    if s.iter.Some? {
      SparedIsClear(s.iter.value.source, c, k);
    }
  }

  // ---------------------------------------------------------------------------------------
  // Over the language

  /** Out of the pass's sight, the functions bind no names but these. */
  ghost predicate MissOnly(functions: map<string, Fn>, xs: set<string>) {
    forall f :: f in functions ==> Missed(functions[f]) <= xs
  }

  ghost predicate SameRun(name: string, args: seq<Literal>, m: Machine, fuel: nat)
    requires name in m.functions
  {
    Run(name, args, Resolved(m), fuel) == Run(name, args, m, fuel)
  }

  /** Every run of every module whose functions bind no other names out of the pass's sight is kept. */
  ghost predicate Keeps(xs: set<string>, m: Machine) {
    forall functions: map<string, Fn>, name, args, fuel :: MissOnly(functions, xs) && name in functions ==>
      SameRun(name, args, m.(functions := functions), fuel)
  }

  /** The pass keeps every run of every module whose functions bind only such names out of its sight, iff it replaces
      none of the names. */
  lemma KeepsIff(xs: set<string>, m: Machine)
    ensures Keeps(xs, m) <==> Spared(xs, m.c, {})
  {
    if Spared(xs, m.c, {}) {
      forall functions: map<string, Fn>, name, args, fuel | MissOnly(functions, xs) && name in functions
        ensures SameRun(name, args, m.(functions := functions), fuel)
      {
        MissOnlyIsClear(functions, xs, m);
        RunsAreKept(name, args, m.(functions := functions), fuel);
      }
    } else {
      var x :| x in xs && Replaced(x, m.c, {});
      var r := if x == "r" then "q" else "r";
      UnwrapIsChanged(x, r, xs, m);
    }
  }

  lemma MissOnlyIsClear(functions: map<string, Fn>, xs: set<string>, m: Machine)
    requires MissOnly(functions, xs) && Spared(xs, m.c, {})
    ensures AllClear(m.(functions := functions))
  {
    forall f | f in functions
      ensures ClearFn(functions[f], m.c, {})
    {
      SparedFn(functions[f], m.c, {});
    }
  }

  /** A function that unwraps into a constant's name. */
  lemma UnwrapIsChanged(x: string, r: string, xs: set<string>, m: Machine)
    requires x in xs && x != r && Replaced(x, m.c, {})
    ensures !Keeps(xs, m)
  {
    var v := m.c[x] + "'";
    var changed := Shadows(ByUnwrap, x, v, m, r);
    assert |v| != |m.c[x]|;
    ShadowingIsMissed(ByUnwrap, x, v, m, 20, r);
    UnwrapMisses(x, v, r);
    assert MissOnly(changed.functions, xs);
    assert m.(functions := changed.functions) == changed;
    assert !SameRun("f", [], changed, 20);
  }

  lemma UnwrapMisses(x: string, v: Literal, r: string)
    ensures Missed(Fn("f", [], [r], Shadowing(ByUnwrap, x, v, r))) <= {x}
  {
    var body := Shadowing(ByUnwrap, x, v, r);
    assert body[1..] == [body[1]] && [body[1]][1..] == [];
    assert body[0] == Unwrap(x, Lit(v)) && body[1] == Let(r, Name(x));
    assert Bound(Lit(v)) == {} && Bound(Name(x)) == {};
    assert BoundIn(body[0]) == {x} + Bound(Lit(v));
    assert MissedIn(body[0]) == {x} && MissedIn(body[1]) == {};
    assert MissedBody([body[1]]) == MissedIn(body[1]) + MissedBody([]);
  }
}

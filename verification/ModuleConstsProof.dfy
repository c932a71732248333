/** Replacing module constants changes no run of a program, as long as no binding that the pass overlooks
    shadows a constant. */
module ModuleConstsProof {
  import opened Wrappers
  import opened ModuleConsts

  // ---------------------------------------------------------------------------------------
  // The condition

  predicate ClearNames(xs: seq<string>, c: Constants, k: set<string>) {
    forall x :: x in xs ==> !Replaced(x, c, k)
  }

  predicate ClearOption(e: Option<Expr>, c: Constants, k: set<string>) {
    e.Some? ==> Clear(e.value, c, k)
  }

  /** No binding at or below e binds a name that the pass replaces there, except to the literal of the constant
      itself, as the definition of a constant does. */
  predicate Clear(e: Expr, c: Constants, k: set<string>) {
    match e
    case Op(_, es) => ClearAll(es, c, k)
    case Fixed(_, es) => ClearAll(es, c, k)
    case Call(f, args) => Clear(f, c, k) && ClearAll(args, c, k)
    case Cond(b, yes, no) => Clear(b, c, k) && Clear(yes, c, k) && Clear(no, c, k)
    case If(b, cons, alt) => Clear(b, c, k) && ClearBody(cons, c, k) && ClearBody(alt, c, k)
    case Match(e', arms) => Clear(e', c, k) && ClearArms(arms, c, k)
    case Assign(l, r) => (l.Name? ==> !Replaced(l.name, c, k)) && Clear(l, c, k) && Clear(r, c, k)
    case _ => true
  }

  predicate ClearAll(es: seq<Expr>, c: Constants, k: set<string>) {
    es == [] || (Clear(es[0], c, k) && ClearAll(es[1..], c, k))
  }

  predicate ClearArms(arms: seq<Arm>, c: Constants, k: set<string>) {
    arms == []
    || (ClearAll(arms[0].heads, c, k) && ClearNames(arms[0].binds, c, k) && ClearBody(arms[0].body, c, k)
        && ClearArms(arms[1..], c, k))
  }

  predicate ClearBody(ss: seq<Stmt>, c: Constants, k: set<string>) {
    ss == [] || (ClearStmt(ss[0], c, k) && ClearBody(ss[1..], c, k))
  }

  predicate ClearStmt(s: Stmt, c: Constants, k: set<string>) {
    match s
    case Do(e) => Clear(e, c, k)
    case Let(x, e) => (Replaced(x, c, k) ==> e == Lit(c[x])) && Clear(e, c, k)
    case Multi(xs, e) => ClearNames(xs, c, k) && Clear(e, c, k)
    case Unwrap(x, e) => !Replaced(x, c, k) && Clear(e, c, k)
    case Function(fn) => !Replaced(fn.name, c, k) && ClearFn(fn, c, k)
    case Block(body) => ClearBody(body, c, k)
    case For(init, cond, update, iter, body) =>
      && ClearBody(init, c, k) && ClearBody(update, c, k) && ClearBody(body, c, k)
      && ClearOption(cond, c, k)
      && (iter.Some? ==> !Replaced(iter.value.variable, c, k) && Clear(iter.value.source, c, k))
    case Return(e) => ClearOption(e, c, k)
  }

  predicate ClearFn(fn: Fn, c: Constants, outer: set<string>) {
    ClearBody(fn.body, c, LocalsOf(fn, outer))
  }

  // ---------------------------------------------------------------------------------------
  // Code that the pass does not enter

  lemma {:induction false} ResolveNothing(e: Expr, c: Constants, r: set<string>)
    requires c.Keys <= r
    ensures Resolve(e, c, r) == e
  {
    match e
    case Op(_, es) => ResolveNothingAll(es, c, r);
    case Call(f, args) =>
      ResolveNothing(f, c, r);
      ResolveNothingAll(args, c, r);
    case Cond(b, yes, no) =>
      ResolveNothing(b, c, r);
      ResolveNothing(yes, c, r);
      ResolveNothing(no, c, r);
    case If(b, cons, alt) =>
      ResolveNothing(b, c, r);
      ResolveNothingBody(cons, c, r);
      ResolveNothingBody(alt, c, r);
    case Match(_, arms) => ResolveNothingArms(arms, c, r);
    case Assign(l, right) =>
      ResolveNothing(l, c, r);
      ResolveNothing(right, c, r);
    case _ =>
  }

  lemma {:induction false} ResolveNothingOption(e: Option<Expr>, c: Constants, r: set<string>)
    requires c.Keys <= r
    ensures ResolveOption(e, c, r) == e
  {
    if e.Some? {
      ResolveNothing(e.value, c, r);
    }
  }

  lemma {:induction false} ResolveNothingAll(es: seq<Expr>, c: Constants, r: set<string>)
    requires c.Keys <= r
    ensures ResolveAll(es, c, r) == es
  {
    if es != [] {
      ResolveNothing(es[0], c, r);
      ResolveNothingAll(es[1..], c, r);
    }
  }

  lemma {:induction false} ResolveNothingArms(arms: seq<Arm>, c: Constants, r: set<string>)
    requires c.Keys <= r
    ensures ResolveArms(arms, c, r) == arms
  {
    if arms != [] {
      ResolveNothingAll(arms[0].heads, c, r);
      ResolveNothingBody(arms[0].body, c, r);
      ResolveNothingArms(arms[1..], c, r);
    }
  }

  lemma {:induction false} ResolveNothingBody(ss: seq<Stmt>, c: Constants, r: set<string>)
    requires c.Keys <= r
    ensures ResolveBody(ss, c, r) == ss
  {
    if ss != [] {
      ResolveNothingStmt(ss[0], c, r);
      ResolveNothingBody(ss[1..], c, r);
    }
  }

  lemma {:induction false} ResolveNothingStmt(s: Stmt, c: Constants, r: set<string>)
    requires c.Keys <= r
    ensures ResolveStmt(s, c, r) == s
  {
    match s
    case Do(e) => ResolveNothing(e, c, r);
    case Let(_, e) => ResolveNothing(e, c, r);
    case Multi(_, e) => ResolveNothing(e, c, r);
    case Unwrap(_, _) =>
    case Function(fn) => ResolveNothingBody(fn.body, c, LocalsOf(fn, r));
    case Block(body) => ResolveNothingBody(body, c, r);
    case For(init, cond, update, iter, body) =>
      ResolveNothingBody(init, c, r);
      ResolveNothingBody(update, c, r);
      ResolveNothingBody(body, c, r);
      ResolveNothingOption(cond, c, r);
    case Return(e) => ResolveNothingOption(e, c, r);
  }

  // ---------------------------------------------------------------------------------------
  // Runs side by side

  /** If the name is replaced where k are local, the value is that of the constant. */
  predicate Fair(x: string, v: Value, c: Constants, k: set<string>) {
    Replaced(x, c, k) ==> v == Base(c[x])
  }

  /** Names that are replaced where k are local are bound to their constants, if they are bound at all. */
  ghost predicate Covered(env: Env, c: Constants, k: set<string>) {
    forall i :: 0 <= i < |env| ==> Fair(env[i].name, env[i].value, c, k)
  }

  /** A closure answers one whose body was resolved, and whose captured bindings were clear of the
      constants replaced in it. */
  ghost predicate Alike(v: Value, w: Value, c: Constants)
    decreases v
  {
    match v
    case Unit => w == Unit
    case Base(l) => w == Base(l)
    case Closure(fn, env) =>
      w.Closure? && AlikeEnv(env, w.env, c) && exists k, r :: ResolvedFrom(fn, w.fn, env, c, k, r)
  }

  ghost predicate AlikeEnv(a: Env, b: Env, c: Constants)
    decreases a
  {
    if a == [] then b == []
    else b != [] && a[0].name == b[0].name && Alike(a[0].value, b[0].value, c) && AlikeEnv(a[1..], b[1..], c)
  }

  ghost predicate ResolvedFrom(fn: Fn, to: Fn, env: Env, c: Constants, k: set<string>, r: set<string>) {
    k <= r && to == ResolveFn(fn, c, r) && ClearFn(fn, c, k) && Covered(env, c, k)
  }

  ghost predicate AlikeAll(vs: seq<Value>, ws: seq<Value>, c: Constants) {
    |vs| == |ws| && forall i :: 0 <= i < |vs| ==> Alike(vs[i], ws[i], c)
  }

  ghost predicate Same(o: Outcome, p: Outcome, c: Constants, k: set<string>) {
    match o
    case Ok(v, env) => p.Ok? && Alike(v, p.v, c) && AlikeEnv(env, p.env, c) && Covered(env, c, k)
    case Returned(v, env) =>
      && p.Returned? && AlikeEnv(env, p.env, c) && Covered(env, c, k)
      && if v.Some? then p.result.Some? && Alike(v.value, p.result.value, c) else p.result.None?
    case Stuck => p.Stuck?
    case OutOfFuel => p.OutOfFuel?
  }

  ghost predicate SameMany(o: Many, p: Many, c: Constants, k: set<string>) {
    match o
    case Vals(vs, env) => p.Vals? && AlikeAll(vs, p.vs, c) && AlikeEnv(env, p.env, c) && Covered(env, c, k)
    case Abrupt(q) => p.Abrupt? && !q.Ok? && Same(q, p.o, c, k)
  }

  function ResolvedFunctions(functions: map<string, Fn>, c: Constants): map<string, Fn> {
    map f | f in functions :: ResolveFn(functions[f], c, {})
  }

  /** The module after the pass. */
  function Resolved(m: Machine): Machine {
    m.(functions := ResolvedFunctions(m.functions, m.c))
  }

  /** No function binds, in a way that the pass overlooks, a name that the pass replaces in it. */
  predicate AllClear(m: Machine) {
    forall f :: f in m.functions ==> ClearFn(m.functions[f], m.c, {})
  }

  lemma {:induction false} SameLookup(x: string, a: Env, b: Env, c: Constants)
    requires AlikeEnv(a, b, c)
    ensures Binds(a, x) == Binds(b, x)
    ensures Binds(a, x) ==> Alike(ValueIn(a, x), ValueIn(b, x), c)
  {
    if a != [] && a[0].name != x {
      SameLookup(x, a[1..], b[1..], c);
    }
  }

  lemma {:induction false} CoveredIsConstant(x: string, env: Env, c: Constants, k: set<string>)
    requires Covered(env, c, k) && Replaced(x, c, k)
    ensures Binds(env, x) ==> ValueIn(env, x) == Base(c[x])
  {
    if env != [] && env[0].name != x {
      CoveredIsConstant(x, env[1..], c, k);
    }
  }

  lemma {:induction false} SameRestrict(a: Env, b: Env, before: Env, before': Env, c: Constants, k: set<string>)
    requires AlikeEnv(a, b, c) && AlikeEnv(before, before', c) && Covered(a, c, k)
    ensures AlikeEnv(Restrict(a, before), Restrict(b, before'), c) && Covered(Restrict(a, before), c, k)
  {
    if a != [] {
      SameLookup(a[0].name, before, before', c);
      assert Covered(a[1..], c, k);
      SameRestrict(a[1..], b[1..], before, before', c, k);
    }
  }

  lemma SameLeave(o: Outcome, p: Outcome, before: Env, before': Env, m: Machine, k: set<string>)
    requires Same(o, p, m.c, k) && AlikeEnv(before, before', m.c)
    ensures Same(Leave(o, before, m), Leave(p, before', Resolved(m)), m.c, k)
  {
    if o.Ok? {
      SameRestrict(o.env, p.env, before, before', m.c, k);
    }
  }

  lemma SameBinding(x: string, v: Value, w: Value, a: Env, b: Env, c: Constants, k: set<string>)
    requires Alike(v, w, c) && AlikeEnv(a, b, c) && Covered(a, c, k) && Fair(x, v, c, k)
    ensures AlikeEnv([Binding(x, v)] + a, [Binding(x, w)] + b, c) && Covered([Binding(x, v)] + a, c, k)
  {
    assert ([Binding(x, v)] + a)[1..] == a && ([Binding(x, w)] + b)[1..] == b;
  }

  lemma SameBound(x: string, o: Outcome, p: Outcome, c: Constants, k: set<string>)
    requires Same(o, p, c, k) && (o.Ok? ==> Fair(x, o.v, c, k))
    ensures Same(Bound(x, o), Bound(x, p), c, k)
  {
    if o.Ok? {
      SameBinding(x, o.v, p.v, o.env, p.env, c, k);
    }
  }

  lemma {:induction false} SameBindAll(xs: seq<string>, vs: seq<Value>, ws: seq<Value>, a: Env, b: Env, c: Constants,
                                       k: set<string>)
    requires AlikeAll(vs, ws, c) && AlikeEnv(a, b, c) && Covered(a, c, k) && ClearNames(xs, c, k)
    ensures AlikeEnv(BindAll(xs, vs, a), BindAll(xs, ws, b), c) && Covered(BindAll(xs, vs, a), c, k)
    decreases |xs|
  {
    if xs != [] {
      var vs', ws' := if vs == [] then [] else vs[1..], if ws == [] then [] else ws[1..];
      SameBindAll(xs[1..], vs', ws', a, b, c, k);
      SameBinding(xs[0], if vs == [] then Unit else vs[0], if ws == [] then Unit else ws[0],
                  BindAll(xs[1..], vs', a), BindAll(xs[1..], ws', b), c, k);
    }
  }

  lemma {:induction false} BasesAreAlike(lits: seq<Literal>, c: Constants)
    ensures AlikeAll(Bases(lits), Bases(lits), c)
  {
    if lits != [] {
      BasesAreAlike(lits[1..], c);
    }
  }

  lemma {:induction false} SameLits(vs: seq<Value>, ws: seq<Value>, c: Constants)
    requires AlikeAll(vs, ws, c)
    ensures LitsOf(vs) == LitsOf(ws)
  {
    if vs != [] {
      assert forall i :: 0 <= i < |vs[1..]| ==> vs[1..][i] == vs[i + 1] && ws[1..][i] == ws[i + 1];
      SameLits(vs[1..], ws[1..], c);
    }
  }

  /** A name means the same before and after the pass. */
  lemma SameName(x: string, a: Env, b: Env, m: Machine, k: set<string>, r: set<string>, fuel: nat)
    requires AllClear(m) && k <= r && AlikeEnv(a, b, m.c) && Covered(a, m.c, k)
    ensures Same(Eval(Name(x), a, m, fuel), Eval(Resolve(Name(x), m.c, r), b, Resolved(m), fuel), m.c, k)
  {
    if fuel > 0 {
      SameLookup(x, a, b, m.c);
      if Replaced(x, m.c, r) {
        CoveredIsConstant(x, a, m.c, k);
      } else if !Binds(a, x) && x !in m.c && x in m.functions {
        assert ResolvedFrom(m.functions[x], Resolved(m).functions[x], [], m.c, {}, {});
      }
    }
  }

  /** Two runs stand at the same point: one where k are local, and one where the pass took r to be local. */
  ghost predicate Together(a: Env, b: Env, m: Machine, k: set<string>, r: set<string>) {
    AllClear(m) && k <= r && AlikeEnv(a, b, m.c) && Covered(a, m.c, k)
  }

  lemma {:induction false} SameEval(e: Expr, a: Env, b: Env, m: Machine, k: set<string>, r: set<string>, fuel: nat)
    requires Together(a, b, m, k, r) && Clear(e, m.c, k)
    ensures Same(Eval(e, a, m, fuel), Eval(Resolve(e, m.c, r), b, Resolved(m), fuel), m.c, k)
    decreases fuel
  {
    if fuel > 0 {
      match e
      case Lit(_) =>
      case Name(x) => SameName(x, a, b, m, k, r, fuel);
      case Op(op, es) => SameOp(op, es, a, b, m, k, r, fuel - 1);
      case Fixed(op, es) =>
        ResolveNothingAll(es, m.c, r + m.c.Keys);
        SameOp(op, es, a, b, m, k, r + m.c.Keys, fuel - 1);
      case Call(f, args) => SameCall(f, args, a, b, m, k, r, fuel - 1);
      case Cond(_, _, _) => SameCond(e, a, b, m, k, r, fuel);
      case If(_, _, _) => SameIf(e, a, b, m, k, r, fuel);
      case Match(_, _) => SameMatch(e, a, b, m, k, r, fuel);
      case Assign(_, _) => SameAssign(e, a, b, m, k, r, fuel);
    }
  }

  lemma {:induction false} SameCond(e: Expr, a: Env, b: Env, m: Machine, k: set<string>, r: set<string>, fuel: nat)
    requires e.Cond? && fuel > 0 && Together(a, b, m, k, r) && Clear(e, m.c, k)
    ensures Same(Eval(e, a, m, fuel), Eval(Resolve(e, m.c, r), b, Resolved(m), fuel), m.c, k)
    decreases fuel, 0
  {
    SameEval(e.cond, a, b, m, k, r, fuel - 1);
    var o, p := Eval(e.cond, a, m, fuel - 1), Eval(Resolve(e.cond, m.c, r), b, Resolved(m), fuel - 1);
    if o.Ok? && o.v.Base? {
      SameEval(if m.holds(o.v.lit) then e.yes else e.no, o.env, p.env, m, k, r, fuel - 1);
    }
  }

  lemma {:induction false} SameIf(e: Expr, a: Env, b: Env, m: Machine, k: set<string>, r: set<string>, fuel: nat)
    requires e.If? && fuel > 0 && Together(a, b, m, k, r) && Clear(e, m.c, k)
    ensures Same(Eval(e, a, m, fuel), Eval(Resolve(e, m.c, r), b, Resolved(m), fuel), m.c, k)
    decreases fuel, 0
  {
    SameEval(e.cond, a, b, m, k, r, fuel - 1);
    var o, p := Eval(e.cond, a, m, fuel - 1), Eval(Resolve(e.cond, m.c, r), b, Resolved(m), fuel - 1);
    if o.Ok? && o.v.Base? {
      var arm := if m.holds(o.v.lit) then e.cons else e.alt;
      SameExec(arm, o.env, p.env, m, k, r, fuel - 1);
      SameLeave(Exec(arm, o.env, m, fuel - 1), Exec(ResolveBody(arm, m.c, r), p.env, Resolved(m), fuel - 1), o.env,
                p.env, m, k);
    }
  }

  /** The matched expression stays as it is. */
  lemma {:induction false} SameMatch(e: Expr, a: Env, b: Env, m: Machine, k: set<string>, r: set<string>, fuel: nat)
    requires e.Match? && fuel > 0 && Together(a, b, m, k, r) && Clear(e, m.c, k)
    ensures Same(Eval(e, a, m, fuel), Eval(Resolve(e, m.c, r), b, Resolved(m), fuel), m.c, k)
    decreases fuel, 0
  {
    ResolveNothing(e.matched, m.c, r + m.c.Keys);
    SameEval(e.matched, a, b, m, k, r + m.c.Keys, fuel - 1);
    var o, p := Eval(e.matched, a, m, fuel - 1), Eval(e.matched, b, Resolved(m), fuel - 1);
    if o.Ok? && o.v.Base? {
      SameArms(o.v.lit, e.arms, o.env, p.env, m, k, r, fuel - 1);
    }
  }

  lemma {:induction false} SameAssign(e: Expr, a: Env, b: Env, m: Machine, k: set<string>, r: set<string>, fuel: nat)
    requires e.Assign? && fuel > 0 && Together(a, b, m, k, r) && Clear(e, m.c, k)
    ensures Same(Eval(e, a, m, fuel), Eval(Resolve(e, m.c, r), b, Resolved(m), fuel), m.c, k)
    decreases fuel, 0
  {
    if e.left.Name? {
      SameEval(e.right, a, b, m, k, r, fuel - 1);
      SameBound(e.left.name, Eval(e.right, a, m, fuel - 1), Eval(Resolve(e.right, m.c, r), b, Resolved(m), fuel - 1),
                m.c, k);
    } else {
      var es := [e.left, e.right];
      assert es[1..] == [e.right] && [e.right][1..] == [];
      assert ResolveAll([e.right], m.c, r) == [Resolve(e.right, m.c, r)];
      assert ResolveAll(es, m.c, r) == [Resolve(e.left, m.c, r), Resolve(e.right, m.c, r)] by {
        assert ResolveAll(es, m.c, r) == [Resolve(e.left, m.c, r)] + [Resolve(e.right, m.c, r)];
      }
      assert !Resolve(e.left, m.c, r).Name?;
      SameOp("=", es, a, b, m, k, r, fuel - 1);
    }
  }

  lemma {:induction false} SameOp(op: string, es: seq<Expr>, a: Env, b: Env, m: Machine, k: set<string>,
                                  r: set<string>, fuel: nat)
    requires Together(a, b, m, k, r) && ClearAll(es, m.c, k)
    ensures Same(EvalOp(op, es, a, m, fuel), EvalOp(op, ResolveAll(es, m.c, r), b, Resolved(m), fuel), m.c, k)
    decreases fuel
  {
    if fuel > 0 {
      SameEvalAll(es, a, b, m, k, r, fuel - 1);
      var o, p := EvalAll(es, a, m, fuel - 1), EvalAll(ResolveAll(es, m.c, r), b, Resolved(m), fuel - 1);
      if o.Vals? {
        SameLits(o.vs, p.vs, m.c);
      }
    }
  }

  lemma {:induction false} SameEvalAll(es: seq<Expr>, a: Env, b: Env, m: Machine, k: set<string>, r: set<string>,
                                       fuel: nat)
    requires Together(a, b, m, k, r) && ClearAll(es, m.c, k)
    ensures SameMany(EvalAll(es, a, m, fuel), EvalAll(ResolveAll(es, m.c, r), b, Resolved(m), fuel), m.c, k)
    decreases fuel
  {
    if es != [] && fuel > 0 {
      SameEval(es[0], a, b, m, k, r, fuel - 1);
      var o, p := Eval(es[0], a, m, fuel - 1), Eval(Resolve(es[0], m.c, r), b, Resolved(m), fuel - 1);
      if o.Ok? {
        SameEvalAll(es[1..], o.env, p.env, m, k, r, fuel - 1);
      }
      assert ResolveAll(es, m.c, r)[1..] == ResolveAll(es[1..], m.c, r);
    }
  }

  lemma {:induction false} SameCall(f: Expr, args: seq<Expr>, a: Env, b: Env, m: Machine, k: set<string>,
                                    r: set<string>, fuel: nat)
    requires Together(a, b, m, k, r) && Clear(f, m.c, k) && ClearAll(args, m.c, k)
    ensures Same(EvalCall(f, args, a, m, fuel),
                 EvalCall(Resolve(f, m.c, r), ResolveAll(args, m.c, r), b, Resolved(m), fuel), m.c, k)
    decreases fuel
  {
    if fuel > 0 {
      SameEval(f, a, b, m, k, r, fuel - 1);
      var o, p := Eval(f, a, m, fuel - 1), Eval(Resolve(f, m.c, r), b, Resolved(m), fuel - 1);
      if o.Ok? {
        SameEvalAll(args, o.env, p.env, m, k, r, fuel - 1);
        SameCalled(o.v, p.v, EvalAll(args, o.env, m, fuel - 1),
                   EvalAll(ResolveAll(args, m.c, r), p.env, Resolved(m), fuel - 1), m, k, fuel - 1);
      }
    }
  }

  lemma {:induction false} SameCalled(f: Value, g: Value, vs: Many, ws: Many, m: Machine, k: set<string>, fuel: nat)
    requires AllClear(m) && Alike(f, g, m.c) && SameMany(vs, ws, m.c, k)
    ensures Same(Called(f, vs, m, fuel), Called(g, ws, Resolved(m), fuel), m.c, k)
    decreases fuel, 1
  {
    if vs.Vals? {
      SameInvoke(f, g, vs.vs, ws.vs, m, k, fuel);
    }
  }

  lemma {:induction false} SameInvoke(f: Value, g: Value, vs: seq<Value>, ws: seq<Value>, m: Machine, k: set<string>,
                                      fuel: nat)
    requires AllClear(m) && Alike(f, g, m.c) && AlikeAll(vs, ws, m.c)
    ensures Same(Invoke(f, vs, m, fuel), Invoke(g, ws, Resolved(m), fuel), m.c, k)
    decreases fuel, 0
  {
    if fuel > 0 && f.Closure? {
      var fn := f.fn;
      var k', r' :| ResolvedFrom(fn, g.fn, f.env, m.c, k', r');
      var inner, taken := LocalsOf(fn, k'), LocalsOf(fn, r');
      SameFrame(f, g, vs, ws, m.c, k');
      SameExec(fn.body, Frame(f, vs), Frame(g, ws), m, inner, taken, fuel - 1);
      var o, p := Exec(fn.body, Frame(f, vs), m, fuel - 1), Exec(g.fn.body, Frame(g, ws), Resolved(m), fuel - 1);
      SameGiven(fn, g.fn, o, p, m.c, inner, k);
    }
  }

  lemma SameGiven(fn: Fn, fn': Fn, o: Outcome, p: Outcome, c: Constants, inner: set<string>, k: set<string>)
    requires Same(o, p, c, inner) && fn'.results == fn.results
    ensures Same(Given(fn, o), Given(fn', p), c, k)
  {
    if (o.Ok? || o.Returned?) && fn.results != [] {
      SameLookup(fn.results[0], o.env, p.env, c);
    }
  }

  lemma SameFrame(f: Value, g: Value, vs: seq<Value>, ws: seq<Value>, c: Constants, k: set<string>)
    requires f.Closure? && g.Closure? && g.fn.params == f.fn.params && g.fn.results == f.fn.results
    requires AlikeEnv(f.env, g.env, c) && Covered(f.env, c, k) && AlikeAll(vs, ws, c)
    ensures AlikeEnv(Frame(f, vs), Frame(g, ws), c) && Covered(Frame(f, vs), c, LocalsOf(f.fn, k))
  {
    var fn, inner := f.fn, LocalsOf(f.fn, k);
    assert Covered(f.env, c, inner);
    assert forall x :: x in fn.results ==> x in Named(fn.results) && x in inner;
    assert forall x :: x in fn.params ==> x in Named(fn.params) && x in inner;
    SameBindAll(fn.results, [], [], f.env, g.env, c, inner);
    SameBindAll(fn.params, vs, ws, BindAll(fn.results, [], f.env), BindAll(fn.results, [], g.env), c, inner);
  }

  lemma {:induction false} SameArms(l: Literal, arms: seq<Arm>, a: Env, b: Env, m: Machine, k: set<string>,
                                    r: set<string>, fuel: nat)
    requires Together(a, b, m, k, r) && ClearArms(arms, m.c, k)
    ensures Same(EvalArms(l, arms, a, m, fuel), EvalArms(l, ResolveArms(arms, m.c, r), b, Resolved(m), fuel), m.c, k)
    decreases fuel
  {
    if arms != [] && fuel > 0 {
      var arm, arm' := arms[0], ResolveArms(arms, m.c, r)[0];
      assert ResolveArms(arms, m.c, r)[1..] == ResolveArms(arms[1..], m.c, r);
      SameEvalAll(arm.heads, a, b, m, k, r, fuel - 1);
      var o, p := EvalAll(arm.heads, a, m, fuel - 1), EvalAll(arm'.heads, b, Resolved(m), fuel - 1);
      if o.Vals? {
        SameLits(o.vs, p.vs, m.c);
        SameArmBody(l, arm, o.env, p.env, m, k, r, fuel - 1);
        SameArms(l, arms[1..], o.env, p.env, m, k, r, fuel - 1);
      }
    }
  }

  lemma {:induction false} SameArmBody(l: Literal, arm: Arm, a: Env, b: Env, m: Machine, k: set<string>,
                                       r: set<string>, fuel: nat)
    requires Together(a, b, m, k, r) && ClearNames(arm.binds, m.c, k) && ClearBody(arm.body, m.c, k)
    ensures Same(Leave(Exec(arm.body, BindAll(arm.binds, Bases(m.items(l)), a), m, fuel), a, m),
                 Leave(Exec(ResolveBody(arm.body, m.c, r), BindAll(arm.binds, Bases(m.items(l)), b), Resolved(m),
                            fuel), b, Resolved(m)),
                 m.c, k)
    decreases fuel, 1
  {
    var vs := Bases(m.items(l));
    BasesAreAlike(m.items(l), m.c);
    SameBindAll(arm.binds, vs, vs, a, b, m.c, k);
    var a', b' := BindAll(arm.binds, vs, a), BindAll(arm.binds, vs, b);
    SameExec(arm.body, a', b', m, k, r, fuel);
    SameLeave(Exec(arm.body, a', m, fuel), Exec(ResolveBody(arm.body, m.c, r), b', Resolved(m), fuel), a, b, m, k);
  }

  lemma {:induction false} SameExec(ss: seq<Stmt>, a: Env, b: Env, m: Machine, k: set<string>, r: set<string>,
                                    fuel: nat)
    requires Together(a, b, m, k, r) && ClearBody(ss, m.c, k)
    ensures Same(Exec(ss, a, m, fuel), Exec(ResolveBody(ss, m.c, r), b, Resolved(m), fuel), m.c, k)
    decreases fuel, 0
  {
    if ss != [] && fuel > 0 {
      SameStep(ss[0], a, b, m, k, r, fuel - 1);
      var o, p := Step(ss[0], a, m, fuel - 1), Step(ResolveStmt(ss[0], m.c, r), b, Resolved(m), fuel - 1);
      if o.Ok? {
        SameExec(ss[1..], o.env, p.env, m, k, r, fuel - 1);
      }
      assert ResolveBody(ss, m.c, r)[1..] == ResolveBody(ss[1..], m.c, r);
    }
  }

  lemma {:induction false} SameStep(s: Stmt, a: Env, b: Env, m: Machine, k: set<string>, r: set<string>, fuel: nat)
    requires Together(a, b, m, k, r) && ClearStmt(s, m.c, k)
    ensures Same(Step(s, a, m, fuel), Step(ResolveStmt(s, m.c, r), b, Resolved(m), fuel), m.c, k)
    decreases fuel
  {
    if fuel > 0 {
      match s
      case Do(e) => SameEval(e, a, b, m, k, r, fuel - 1);
      case Let(x, e) =>
        SameEval(e, a, b, m, k, r, fuel - 1);
        SameBound(x, Eval(e, a, m, fuel - 1), Eval(Resolve(e, m.c, r), b, Resolved(m), fuel - 1), m.c, k);
      case Multi(xs, e) => SameMulti(s, a, b, m, k, r, fuel);
      case Unwrap(x, e) =>
        ResolveNothing(e, m.c, r + m.c.Keys);
        SameEval(e, a, b, m, k, r + m.c.Keys, fuel - 1);
        SameBound(x, Eval(e, a, m, fuel - 1), Eval(e, b, Resolved(m), fuel - 1), m.c, k);
      case Function(fn) =>
        assert ResolvedFrom(fn, ResolveFn(fn, m.c, r), a, m.c, k, r);
        SameBinding(fn.name, Closure(fn, a), Closure(ResolveFn(fn, m.c, r), b), a, b, m.c, k);
      case Block(body) =>
        SameExec(body, a, b, m, k, r, fuel - 1);
        SameLeave(Exec(body, a, m, fuel - 1), Exec(ResolveBody(body, m.c, r), b, Resolved(m), fuel - 1), a, b, m, k);
      case For(_, _, _, _, _) => SameFor(s, a, b, m, k, r, fuel);
      case Return(e) =>
        if e.Some? {
          SameEval(e.value, a, b, m, k, r, fuel - 1);
        }
    }
  }

  lemma {:induction false} SameMulti(s: Stmt, a: Env, b: Env, m: Machine, k: set<string>, r: set<string>, fuel: nat)
    requires s.Multi? && fuel > 0 && Together(a, b, m, k, r) && ClearStmt(s, m.c, k)
    ensures Same(Step(s, a, m, fuel), Step(ResolveStmt(s, m.c, r), b, Resolved(m), fuel), m.c, k)
    decreases fuel, 0
  {
    SameEval(s.e, a, b, m, k, r, fuel - 1);
    var o, p := Eval(s.e, a, m, fuel - 1), Eval(Resolve(s.e, m.c, r), b, Resolved(m), fuel - 1);
    if o.Ok? && o.v.Base? {
      var vs := Bases(m.items(o.v.lit));
      BasesAreAlike(m.items(o.v.lit), m.c);
      SameBindAll(s.names, vs, vs, o.env, p.env, m.c, k);
    }
  }

  lemma {:induction false} SameFor(s: Stmt, a: Env, b: Env, m: Machine, k: set<string>, r: set<string>, fuel: nat)
    requires s.For? && fuel > 0 && Together(a, b, m, k, r) && ClearStmt(s, m.c, k)
    ensures Same(Step(s, a, m, fuel), Step(ResolveStmt(s, m.c, r), b, Resolved(m), fuel), m.c, k)
    decreases fuel, 0
  {
    var t := ResolveStmt(s, m.c, r);
    SameExec(s.init, a, b, m, k, r, fuel - 1);
    var o, p := Exec(s.init, a, m, fuel - 1), Exec(t.init, b, Resolved(m), fuel - 1);
    if o.Ok? {
      if s.iter.None? {
        SameLoop(s.cond, s.update, s.body, o.env, p.env, m, k, r, fuel - 1);
        SameLeave(Loop(s.cond, s.update, s.body, o.env, m, fuel - 1),
                  Loop(t.cond, t.update, t.body, p.env, Resolved(m), fuel - 1), a, b, m, k);
      } else {
        var source := s.iter.value.source;
        ResolveNothing(source, m.c, r + m.c.Keys);
        SameEval(source, o.env, p.env, m, k, r + m.c.Keys, fuel - 1);
        var v, w := Eval(source, o.env, m, fuel - 1), Eval(source, p.env, Resolved(m), fuel - 1);
        if v.Ok? && v.v.Base? {
          var x, items := s.iter.value.variable, m.items(v.v.lit);
          SameEach(x, items, s.body, v.env, w.env, m, k, r, fuel - 1);
          SameLeave(Each(x, items, s.body, v.env, m, fuel - 1), Each(x, items, t.body, w.env, Resolved(m), fuel - 1),
                    a, b, m, k);
        }
      }
    }
  }

  lemma {:induction false} SameLoop(cond: Option<Expr>, update: seq<Stmt>, body: seq<Stmt>, a: Env, b: Env, m: Machine,
                                    k: set<string>, r: set<string>, fuel: nat)
    requires Together(a, b, m, k, r)
    requires ClearOption(cond, m.c, k) && ClearBody(update, m.c, k) && ClearBody(body, m.c, k)
    ensures Same(Loop(cond, update, body, a, m, fuel),
                 Loop(ResolveOption(cond, m.c, r), ResolveBody(update, m.c, r), ResolveBody(body, m.c, r), b,
                      Resolved(m), fuel), m.c, k)
    decreases fuel, 2
  {
    if fuel > 0 {
      var o, p := Ok(Base(""), a), Ok(Base(""), b);
      if cond.Some? {
        SameEval(cond.value, a, b, m, k, r, fuel - 1);
        o, p := Eval(cond.value, a, m, fuel - 1), Eval(Resolve(cond.value, m.c, r), b, Resolved(m), fuel - 1);
      }
      if o.Ok? && o.v.Base? && !(cond.Some? && !m.holds(o.v.lit)) {
        SameRound(cond, update, body, o.env, p.env, m, k, r, fuel);
      }
    }
  }

  /** One round of a loop, and those after it. */
  lemma {:induction false} SameRound(cond: Option<Expr>, update: seq<Stmt>, body: seq<Stmt>, a: Env, b: Env, m: Machine,
                                     k: set<string>, r: set<string>, fuel: nat)
    requires Together(a, b, m, k, r) && fuel > 0
    requires ClearOption(cond, m.c, k) && ClearBody(update, m.c, k) && ClearBody(body, m.c, k)
    ensures Same(Round(cond, update, body, a, m, fuel - 1),
                 Round(ResolveOption(cond, m.c, r), ResolveBody(update, m.c, r), ResolveBody(body, m.c, r), b,
                       Resolved(m), fuel - 1), m.c, k)
    decreases fuel, 1
  {
    SameBody(body, a, b, m, k, r, fuel - 1);
    var once := Leave(Exec(body, a, m, fuel - 1), a, m);
    var once' := Leave(Exec(ResolveBody(body, m.c, r), b, Resolved(m), fuel - 1), b, Resolved(m));
    if once.Ok? {
      SameExec(update, once.env, once'.env, m, k, r, fuel - 1);
      var next := Exec(update, once.env, m, fuel - 1);
      var next' := Exec(ResolveBody(update, m.c, r), once'.env, Resolved(m), fuel - 1);
      if next.Ok? {
        SameLoop(cond, update, body, next.env, next'.env, m, k, r, fuel - 1);
      }
    }
  }

  lemma {:induction false} SameBody(body: seq<Stmt>, a: Env, b: Env, m: Machine, k: set<string>, r: set<string>,
                                    fuel: nat)
    requires Together(a, b, m, k, r) && ClearBody(body, m.c, k)
    ensures Same(Leave(Exec(body, a, m, fuel), a, m),
                 Leave(Exec(ResolveBody(body, m.c, r), b, Resolved(m), fuel), b, Resolved(m)), m.c, k)
    decreases fuel, 1
  {
    SameExec(body, a, b, m, k, r, fuel);
    SameLeave(Exec(body, a, m, fuel), Exec(ResolveBody(body, m.c, r), b, Resolved(m), fuel), a, b, m, k);
  }

  lemma {:induction false} SameEach(x: string, items: seq<Literal>, body: seq<Stmt>, a: Env, b: Env, m: Machine,
                                    k: set<string>, r: set<string>, fuel: nat)
    requires Together(a, b, m, k, r) && !Replaced(x, m.c, k) && ClearBody(body, m.c, k)
    ensures Same(Each(x, items, body, a, m, fuel), Each(x, items, ResolveBody(body, m.c, r), b, Resolved(m), fuel),
                 m.c, k)
    decreases fuel
  {
    if items != [] && fuel > 0 {
      var a', b' := [Binding(x, Base(items[0]))] + a, [Binding(x, Base(items[0]))] + b;
      SameBinding(x, Base(items[0]), Base(items[0]), a, b, m.c, k);
      SameExec(body, a', b', m, k, r, fuel - 1);
      SameLeave(Exec(body, a', m, fuel - 1), Exec(ResolveBody(body, m.c, r), b', Resolved(m), fuel - 1), a, b, m, k);
      var once := Leave(Exec(body, a', m, fuel - 1), a, m);
      var once' := Leave(Exec(ResolveBody(body, m.c, r), b', Resolved(m), fuel - 1), b, Resolved(m));
      if once.Ok? {
        SameEach(x, items[1..], body, once.env, once'.env, m, k, r, fuel - 1);
      }
    }
  }

  /** The pass preserves every run of every function, when all bindings of constants' names are ones that it
      collects. */
  lemma RunsAreKept(name: string, args: seq<Literal>, m: Machine, fuel: nat)
    requires AllClear(m) && name in m.functions
    ensures Run(name, args, Resolved(m), fuel) == Run(name, args, m, fuel)
  {
    var fn, fn' := m.functions[name], Resolved(m).functions[name];
    assert ResolvedFrom(fn, fn', [], m.c, {}, {});
    BasesAreAlike(args, m.c);
    SameInvoke(Closure(fn, []), Closure(fn', []), Bases(args), Bases(args), m, {}, fuel);
  }

  /** The pass preserves every run of the statements of the top level, in what each variable is afterwards. The
      definitions of the constants may be among them. */
  lemma TopIsKept(p: seq<Stmt>, x: string, m: Machine, fuel: nat)
    requires AllClear(m) && ClearBody(p, m.c, {})
    ensures RunTop(ResolveBody(p, m.c, {}), x, Resolved(m), fuel) == RunTop(p, x, m, fuel)
  {
    SameExec(p, [], [], m, {}, {}, fuel);
    var o, q := Exec(p, [], m, fuel), Exec(ResolveBody(p, m.c, {}), [], Resolved(m), fuel);
    if o.Ok? {
      SameLookup(x, o.env, q.env, m.c);
    }
  }

  // ---------------------------------------------------------------------------------------
  // Which bindings need checking

  /** As ClearBody, but without a check of the bindings that the pass collects: those of lets and loop
      variables in the body itself, its blocks and its loops. */
  predicate OverlookedAreClear(ss: seq<Stmt>, c: Constants, k: set<string>) {
    ss == [] || (OverlookedIn(ss[0], c, k) && OverlookedAreClear(ss[1..], c, k))
  }

  predicate OverlookedIn(s: Stmt, c: Constants, k: set<string>) {
    match s
    case Let(_, e) => Clear(e, c, k)
    case Function(fn) => !Replaced(fn.name, c, k) && OverlookedAreClear(fn.body, c, LocalsOf(fn, k))
    case Block(body) => OverlookedAreClear(body, c, k)
    case For(init, cond, update, iter, body) =>
      && (if |init| == 1 && init[0].Let? then Clear(init[0].e, c, k) else ClearBody(init, c, k))
      && ClearBody(update, c, k) && OverlookedAreClear(body, c, k)
      && ClearOption(cond, c, k)
      && (iter.Some? ==> (iter.value.variable == "" ==> !Replaced("", c, k)) && Clear(iter.value.source, c, k))
    case _ => ClearStmt(s, c, k)
  }

  /** Only the bindings that the pass overlooks need checking. */
  lemma {:induction false} CollectedNeedNoCheck(ss: seq<Stmt>, c: Constants, k: set<string>)
    requires Collected(ss) <= k
    ensures ClearBody(ss, c, k) <==> OverlookedAreClear(ss, c, k)
  {
    if ss != [] {
      CollectedNeedNoCheckIn(ss[0], c, k);
      CollectedNeedNoCheck(ss[1..], c, k);
    }
  }

  lemma {:induction false} CollectedNeedNoCheckIn(s: Stmt, c: Constants, k: set<string>)
    requires CollectedIn(s) <= k
    ensures ClearStmt(s, c, k) <==> OverlookedIn(s, c, k)
  {
    match s
    case Let(x, _) =>
      assert x in CollectedIn(s);
    case Function(fn) => CollectedNeedNoCheck(fn.body, c, LocalsOf(fn, k));
    case Block(body) => CollectedNeedNoCheck(body, c, k);
    case For(init, _, _, iter, body) =>
      CollectedNeedNoCheck(body, c, k);
      if |init| == 1 && init[0].Let? {
        assert init[0].name in CollectedIn(s);
        assert init[1..] == [] && ClearBody(init, c, k) == Clear(init[0].e, c, k);
      }
      if iter.Some? && iter.value.variable != "" {
        assert iter.value.variable in CollectedIn(s);
      }
    case _ =>
  }

  // ---------------------------------------------------------------------------------------
  // Bindings that the pass overlooks

  datatype Form = InArm | OfMatchArm | ByMulti | ByUnwrap | OfFunction

  /** A nested function of the name x that gives v. */
  function Inner(x: string, v: Literal, r: string): Fn {
    Fn(x, [], [r], [Let(r, Lit(v))])
  }

  /** A function body that binds x to v in a form that the pass overlooks, and gives x as its result r. */
  function Shadowing(form: Form, x: string, v: Literal, r: string): seq<Stmt> {
    match form
    case InArm => [Do(If(Lit(v), ArmOf(x, v, r), ArmOf(x, v, r)))]
    case OfMatchArm => [Do(Match(Lit(v), [Arm([], [x], [Give(x, r)])]))]
    case ByMulti => [Multi([x], Lit(v)), Give(x, r)]
    case ByUnwrap => [Unwrap(x, Lit(v)), Give(x, r)]
    case OfFunction => [Function(Inner(x, v, r)), Let(r, Call(Name(x), []))]
  }

  function Give(x: string, r: string): Stmt {
    Let(r, Name(x))
  }

  function ArmOf(x: string, v: Literal, r: string): seq<Stmt> {
    [Let(x, Lit(v)), Give(x, r)]
  }

  /** A module whose only function shadows the constant x. */
  function Shadows(form: Form, x: string, v: Literal, m: Machine, r: string): Machine {
    m.(functions := map["f" := Fn("f", [], [r], Shadowing(form, x, v, r))])
  }

  /** The variables of the function when it starts: its result. */
  function Start(r: string): Env {
    [Binding(r, Unit)]
  }

  lemma StartsThere(m: Machine, body: seq<Stmt>, fuel: nat, r: string)
    requires m.functions == map["f" := Fn("f", [], [r], body)] && fuel > 0
    ensures Run("f", [], m, fuel) == Seen(Given(m.functions["f"], Exec(body, Start(r), m, fuel - 1)))
  {
    assert [r][1..] == [] && BindAll([r], [], []) == [Binding(r, Unit)] + BindAll([], [], []);
    assert Frame(Closure(m.functions["f"], []), []) == Start(r);
    assert Bases([]) == [];
  }

  /** r is the literal after it. */
  ghost predicate Leaves(o: Outcome, l: Literal, r: string) {
    o.Ok? && Binds(o.env, r) && ValueIn(o.env, r) == Base(l)
  }

  lemma GivesWhatItLeaves(m: Machine, body: seq<Stmt>, l: Literal, fuel: nat, r: string)
    requires m.functions == map["f" := Fn("f", [], [r], body)] && fuel > 0
    requires Leaves(Exec(body, Start(r), m, fuel - 1), l, r)
    ensures Run("f", [], m, fuel) == Answer(l)
  {
    StartsThere(m, body, fuel, r);
  }

  lemma ExecOne(s: Stmt, env: Env, m: Machine, fuel: nat)
    requires fuel > 1 && Step(s, env, m, fuel - 1).Ok?
    ensures Exec([s], env, m, fuel) == Ok(Unit, Step(s, env, m, fuel - 1).env)
  {
    assert [s][1..] == [];
  }

  lemma ExecTwo(s: Stmt, t: Stmt, env: Env, m: Machine, fuel: nat)
    requires fuel > 1
    ensures var o := Step(s, env, m, fuel - 1);
            Exec([s, t], env, m, fuel) == if o.Ok? then Exec([t], o.env, m, fuel - 1) else o
  {
    assert [s, t][1..] == [t];
  }

  /** The expression has the literal as its value. */
  ghost predicate Evals(e: Expr, l: Literal, env: Env, m: Machine) {
    forall fuel: nat :: fuel > 0 ==> Eval(e, env, m, fuel) == Ok(Base(l), env)
  }

  lemma GiveLeaves(e: Expr, l: Literal, env: Env, m: Machine, fuel: nat, r: string)
    requires fuel > 3 && Eval(e, env, m, fuel - 2) == Ok(Base(l), env)
    ensures Exec([Let(r, e)], env, m, fuel) == Ok(Unit, [Binding(r, Base(l))] + env)
    ensures Leaves(Exec([Let(r, e)], env, m, fuel), l, r)
  {
    assert Step(Let(r, e), env, m, fuel - 1) == Ok(Base(l), [Binding(r, Base(l))] + env);
    ExecOne(Let(r, e), env, m, fuel);
  }

  /** What an arm leaves in r outlives it, as r is bound before. */
  lemma LeavesArm(o: Outcome, l: Literal, env: Env, m: Machine, r: string)
    requires Leaves(o, l, r) && Binds(env, r)
    ensures Leaves(Leave(o, env, m), l, r)
  {
    if m.blockScoped {
      KeptInRestrict(r, o.env, env);
    }
  }

  lemma {:induction false} KeptInRestrict(x: string, after: Env, before: Env)
    requires Binds(after, x) && Binds(before, x)
    ensures Binds(Restrict(after, before), x) && ValueIn(Restrict(after, before), x) == ValueIn(after, x)
  {
    if after[0].name == x {
      assert Restrict(after, before)[0] == after[0];
    } else {
      KeptInRestrict(x, after[1..], before);
      if Binds(before, after[0].name) {
        assert Restrict(after, before)[1..] == Restrict(after[1..], before);
      }
    }
  }

  /** An if whose arms are the same. */
  lemma IfLeaves(v: Literal, arm: seq<Stmt>, l: Literal, env: Env, m: Machine, fuel: nat, r: string)
    requires fuel > 4 && Binds(env, r) && Leaves(Exec(arm, env, m, fuel - 3), l, r)
    ensures Leaves(Exec([Do(If(Lit(v), arm, arm))], env, m, fuel), l, r)
  {
    var e := If(Lit(v), arm, arm);
    LeavesArm(Exec(arm, env, m, fuel - 3), l, env, m, r);
    assert Eval(Lit(v), env, m, fuel - 3) == Ok(Base(v), env);
    assert Eval(e, env, m, fuel - 2) == Leave(Exec(arm, env, m, fuel - 3), env, m);
    assert Step(Do(e), env, m, fuel - 1) == Eval(e, env, m, fuel - 2);
    ExecOne(Do(e), env, m, fuel);
  }

  lemma ArmLeaves(x: string, v: Literal, e: Expr, l: Literal, env: Env, m: Machine, fuel: nat, r: string)
    requires fuel > 5 && Evals(e, l, [Binding(x, Base(v))] + env, m)
    ensures Leaves(Exec([Let(x, Lit(v)), Let(r, e)], env, m, fuel), l, r)
  {
    assert Eval(Lit(v), env, m, fuel - 2) == Ok(Base(v), env);
    assert Step(Let(x, Lit(v)), env, m, fuel - 1) == Ok(Base(v), [Binding(x, Base(v))] + env);
    ExecTwo(Let(x, Lit(v)), Let(r, e), env, m, fuel);
    GiveLeaves(e, l, [Binding(x, Base(v))] + env, m, fuel - 1, r);
  }

  /** A match whose only arm binds x to v, and gives e. */
  lemma MatchLeaves(x: string, v: Literal, e: Expr, l: Literal, env: Env, m: Machine, fuel: nat, r: string)
    requires fuel > 8 && m.items(v) == [v] && m.selects(v, []) && Binds(env, r)
    requires Evals(e, l, [Binding(x, Base(v))] + env, m)
    ensures Leaves(Exec([Do(Match(Lit(v), [Arm([], [x], [Let(r, e)])]))], env, m, fuel), l, r)
  {
    var arm := Arm([], [x], [Let(r, e)]);
    BindsOne(x, v, env, m);
    GiveLeaves(e, l, [Binding(x, Base(v))] + env, m, fuel - 4, r);
    LeavesArm(Exec(arm.body, [Binding(x, Base(v))] + env, m, fuel - 4), l, env, m, r);
    OnlyArm(v, arm, env, m, fuel - 3);
    assert Eval(Lit(v), env, m, fuel - 3) == Ok(Base(v), env);
    assert Eval(Match(Lit(v), [arm]), env, m, fuel - 2) == EvalArms(v, [arm], env, m, fuel - 3);
    ExecOne(Do(Match(Lit(v), [arm])), env, m, fuel);
  }

  lemma OnlyArm(v: Literal, arm: Arm, env: Env, m: Machine, fuel: nat)
    requires fuel > 1 && arm.heads == [] && m.selects(v, [])
    ensures EvalArms(v, [arm], env, m, fuel)
         == Leave(Exec(arm.body, BindAll(arm.binds, Bases(m.items(v)), env), m, fuel - 1), env, m)
  {
    assert EvalAll([], env, m, fuel - 1) == Vals([], env) && LitsOf([]) == Some([]);
  }

  lemma BindsOne(x: string, v: Literal, env: Env, m: Machine)
    requires m.items(v) == [v]
    ensures BindAll([x], Bases(m.items(v)), env) == [Binding(x, Base(v))] + env
  {
    assert [x][1..] == [] && [v][1..] == [] && Bases([]) == [];
    assert Bases([v]) == [Base(v)] && BindAll([], [], env) == env;
  }

  /** A statement that binds x to v, and then e. */
  lemma StatementLeaves(s: Stmt, x: string, v: Literal, e: Expr, l: Literal, env: Env, m: Machine, fuel: nat, r: string)
    requires fuel > 5 && ((s == Multi([x], Lit(v)) && m.items(v) == [v]) || s == Unwrap(x, Lit(v)))
    requires Evals(e, l, [Binding(x, Base(v))] + env, m)
    ensures Leaves(Exec([s, Let(r, e)], env, m, fuel), l, r)
  {
    assert Eval(Lit(v), env, m, fuel - 2) == Ok(Base(v), env);
    if s.Multi? {
      BindsOne(x, v, env, m);
    }
    var o := Step(s, env, m, fuel - 1);
    assert o.Ok? && o.env == [Binding(x, Base(v))] + env;
    ExecTwo(s, Let(r, e), env, m, fuel);
    GiveLeaves(e, l, o.env, m, fuel - 1, r);
  }

  lemma InnerGives(x: string, v: Literal, outer: Env, m: Machine, fuel: nat, r: string)
    requires fuel > 5
    ensures Invoke(Closure(Inner(x, v, r), outer), [], m, fuel) == Ok(Base(v), [])
  {
    var f := Closure(Inner(x, v, r), outer);
    var env := Frame(f, []);
    assert [r][1..] == [] && BindAll([r], [], outer) == [Binding(r, Unit)] + BindAll([], [], outer);
    assert Eval(Lit(v), env, m, fuel - 3) == Ok(Base(v), env);
    GiveLeaves(Lit(v), v, env, m, fuel - 1, r);
  }

  lemma FunctionLeaves(x: string, v: Literal, outer: Env, m: Machine, fuel: nat, r: string)
    requires fuel > 12
    ensures Leaves(Exec(Shadowing(OfFunction, x, v, r), outer, m, fuel), v, r)
  {
    var s, e := Function(Inner(x, v, r)), Call(Name(x), []);
    var f := Closure(Inner(x, v, r), outer);
    var env := [Binding(x, f)] + outer;
    assert Step(s, outer, m, fuel - 1) == Ok(Unit, env);
    ExecTwo(s, Let(r, e), outer, m, fuel);
    assert Eval(Name(x), env, m, fuel - 5) == Ok(f, env);
    assert EvalAll([], env, m, fuel - 5) == Vals([], env);
    InnerGives(x, v, outer, m, fuel - 5, r);
    assert EvalCall(Name(x), [], env, m, fuel - 4) == Ok(Base(v), env);
    assert Eval(e, env, m, fuel - 3) == Ok(Base(v), env);
    GiveLeaves(e, v, env, m, fuel - 1, r);
  }

  lemma CallOfLiteralFails(f: Fn, l: Literal, outer: Env, m: Machine, fuel: nat, r: string)
    requires fuel > 8
    ensures Exec([Function(f), Let(r, Call(Lit(l), []))], outer, m, fuel) == Stuck
  {
    var s, t := Function(f), Let(r, Call(Lit(l), []));
    var env := [Binding(f.name, Closure(f, outer))] + outer;
    assert Step(s, outer, m, fuel - 1) == Ok(Unit, env);
    ExecTwo(s, t, outer, m, fuel);
    assert Eval(Lit(l), env, m, fuel - 5) == Ok(Base(l), env);
    assert EvalAll([], env, m, fuel - 5) == Vals([], env);
    assert Invoke(Base(l), [], m, fuel - 5) == Stuck;
    assert EvalCall(Lit(l), [], env, m, fuel - 4) == Stuck;
    assert Step(t, env, m, fuel - 2) == Stuck;
  }

  /** The value is an item of itself, and a match on it selects an arm without patterns, where the form asks for it. */
  predicate Suits(form: Form, v: Literal, m: Machine) {
    && (form.ByMulti? || form.OfMatchArm? ==> m.items(v) == [v])
    && (form.OfMatchArm? ==> m.selects(v, []))
  }

  /** The shadowing body before the pass. */
  lemma ShadowingLeaves(form: Form, x: string, v: Literal, env: Env, m: Machine, fuel: nat, r: string)
    requires Suits(form, v, m) && Binds(env, r) && fuel > 12
    ensures Leaves(Exec(Shadowing(form, x, v, r), env, m, fuel), v, r)
  {
    assert Evals(Name(x), v, [Binding(x, Base(v))] + env, m);
    match form
    case InArm =>
      ArmLeaves(x, v, Name(x), v, env, m, fuel - 3, r);
      IfLeaves(v, ArmOf(x, v, r), v, env, m, fuel, r);
    case OfMatchArm => MatchLeaves(x, v, Name(x), v, env, m, fuel, r);
    case ByMulti => StatementLeaves(Multi([x], Lit(v)), x, v, Name(x), v, env, m, fuel, r);
    case ByUnwrap => StatementLeaves(Unwrap(x, Lit(v)), x, v, Name(x), v, env, m, fuel, r);
    case OfFunction => FunctionLeaves(x, v, env, m, fuel, r);
  }

  /** The shadowing body after the pass. */
  function Shadowed(form: Form, x: string, v: Literal, l: Literal, r: string): seq<Stmt> {
    var give := Let(r, Lit(l));
    match form
    case InArm => [Do(If(Lit(v), [Let(x, Lit(v)), give], [Let(x, Lit(v)), give]))]
    case OfMatchArm => [Do(Match(Lit(v), [Arm([], [x], [give])]))]
    case ByMulti => [Multi([x], Lit(v)), give]
    case ByUnwrap => [Unwrap(x, Lit(v)), give]
    case OfFunction => [Function(Inner(x, v, r)), Let(r, Call(Lit(l), []))]
  }

  /** It gives the constant, or fails. */
  lemma ShadowedLeaves(form: Form, x: string, v: Literal, l: Literal, env: Env, m: Machine, fuel: nat, r: string)
    requires Suits(form, v, m) && Binds(env, r) && fuel > 12
    ensures var o := Exec(Shadowed(form, x, v, l, r), env, m, fuel);
            if form.OfFunction? then o == Stuck else Leaves(o, l, r)
  {
    assert Evals(Lit(l), l, [Binding(x, Base(v))] + env, m);
    match form
    case InArm =>
      ArmLeaves(x, v, Lit(l), l, env, m, fuel - 3, r);
      IfLeaves(v, [Let(x, Lit(v)), Let(r, Lit(l))], l, env, m, fuel, r);
    case OfMatchArm => MatchLeaves(x, v, Lit(l), l, env, m, fuel, r);
    case ByMulti => StatementLeaves(Multi([x], Lit(v)), x, v, Lit(l), l, env, m, fuel, r);
    case ByUnwrap => StatementLeaves(Unwrap(x, Lit(v)), x, v, Lit(l), l, env, m, fuel, r);
    case OfFunction => CallOfLiteralFails(Inner(x, v, r), l, env, m, fuel, r);
  }

  lemma ResolveOne(s: Stmt, c: Constants, r: set<string>)
    ensures ResolveBody([s], c, r) == [ResolveStmt(s, c, r)]
  {
    assert [s][1..] == [];
  }

  lemma ResolveTwo(s: Stmt, t: Stmt, c: Constants, r: set<string>)
    ensures ResolveBody([s, t], c, r) == [ResolveStmt(s, c, r), ResolveStmt(t, c, r)]
  {
    assert [s, t][1..] == [t];
    ResolveOne(t, c, r);
  }

  /** Where only r is local, the pass replaces x. */
  lemma ShadowingIsResolved(form: Form, x: string, v: Literal, c: Constants, r: string)
    requires Replaced(x, c, {r})
    ensures ResolveBody(Shadowing(form, x, v, r), c, {r}) == Shadowed(form, x, v, c[x], r)
  {
    var k, give := {r}, Let(r, Lit(c[x]));
    assert ResolveStmt(Give(x, r), c, k) == give;
    match form
    case InArm =>
      ResolveTwo(Let(x, Lit(v)), Give(x, r), c, k);
      ResolveOne(Do(If(Lit(v), ArmOf(x, v, r), ArmOf(x, v, r))), c, k);
    case OfMatchArm =>
      var arm := Arm([], [x], [Give(x, r)]);
      ResolveOne(Give(x, r), c, k);
      assert [arm][1..] == [] && ResolveArms([arm], c, k) == [Arm([], [x], [give])];
      ResolveOne(Do(Match(Lit(v), [arm])), c, k);
    case ByMulti => ResolveTwo(Multi([x], Lit(v)), Give(x, r), c, k);
    case ByUnwrap => ResolveTwo(Unwrap(x, Lit(v)), Give(x, r), c, k);
    case OfFunction =>
      ResolveTwo(Function(Inner(x, v, r)), Let(r, Call(Name(x), [])), c, k);
      ResolveOne(Let(r, Lit(v)), c, LocalsOf(Inner(x, v, r), k));
      assert ResolveFn(Inner(x, v, r), c, k) == Inner(x, v, r);
      assert Resolve(Call(Name(x), []), c, k) == Call(Lit(c[x]), []);
  }

  /** The pass finds no local in the body but r. */
  lemma ShadowingHasNoLocals(form: Form, x: string, v: Literal, r: string)
    ensures LocalsOf(Fn("f", [], [r], Shadowing(form, x, v, r)), {}) == {r}
  {
    var body := Shadowing(form, x, v, r);
    assert Named([r]) == {r} && Named([]) == {};
    var inner := [Let(r, Lit(v))];
    assert inner[1..] == [] && Collected(inner) == {r};
    if |body| == 2 {
      assert body[1..] == [body[1]] && [body[1]][1..] == [];
      assert CollectedIn(body[0]) <= {r} && Collected([body[1]]) == {r};
    } else {
      assert body[1..] == [] && Collected(body) == CollectedIn(body[0]) + Collected([]);
    }
  }

  /** For each of these forms, a binding that shadows a constant changes what the function gives: it then gives the
      constant, or fails. */
  lemma ShadowingIsMissed(form: Form, x: string, v: Literal, m: Machine, fuel: nat, r: string)
    requires x in m.c && x !in VARIANTS && x != r && v != m.c[x]
    requires Suits(form, v, m) && fuel > 13
    ensures Run("f", [], Shadows(form, x, v, m, r), fuel) == Answer(v)
    ensures Run("f", [], Resolved(Shadows(form, x, v, m, r)), fuel)
        == if form.OfFunction? then Fails else Answer(m.c[x])
  {
    ShadowingLeaves(form, x, v, Start(r), Shadows(form, x, v, m, r), fuel - 1, r);
    GivesWhatItLeaves(Shadows(form, x, v, m, r), Shadowing(form, x, v, r), v, fuel, r);
    ShadowingHasNoLocals(form, x, v, r);
    ShadowingIsResolved(form, x, v, m.c, r);
    AfterThePass(form, x, v, m.c[x], Resolved(Shadows(form, x, v, m, r)), fuel, r);
  }

  lemma AfterThePass(form: Form, x: string, v: Literal, l: Literal, m: Machine, fuel: nat, r: string)
    requires m.functions == map["f" := Fn("f", [], [r], Shadowed(form, x, v, l, r))]
    requires Suits(form, v, m) && fuel > 13
    ensures Run("f", [], m, fuel) == if form.OfFunction? then Fails else Answer(l)
  {
    ShadowedLeaves(form, x, v, l, Start(r), m, fuel - 1, r);
    if form.OfFunction? {
      StartsThere(m, Shadowed(form, x, v, l, r), fuel, r);
    } else {
      GivesWhatItLeaves(m, Shadowed(form, x, v, l, r), l, fuel, r);
    }
  }
}

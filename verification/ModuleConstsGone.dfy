/** After the pass a module does not need its constants: they are replaced everywhere that the pass goes. */
module ModuleConstsGone {
  import opened Wrappers
  import opened ModuleConsts
  import opened ModuleConstsProof

  // ---------------------------------------------------------------------------------------
  // One name

  /** A name becomes the literal of its constant, unless it is local or the name of an option variant. */
  lemma NameBecomes(x: string, c: Constants, locals: set<string>)
    ensures Resolve(Name(x), c, locals)
         == if x in c && x !in locals && x != "ok" && x != "nil" && x != "err" then Lit(c[x]) else Name(x)
  {
  }

  // ---------------------------------------------------------------------------------------
  // Code without certain names

  /** None of the names is read or assigned anywhere in e, in whatever form. */
  predicate Avoids(e: Expr, xs: set<string>) {
    match e
    case Lit(_) => true
    case Name(x) => x !in xs
    case Op(_, es) => AvoidsAll(es, xs)
    case Fixed(_, es) => AvoidsAll(es, xs)
    case Call(f, args) => Avoids(f, xs) && AvoidsAll(args, xs)
    case Cond(b, yes, no) => Avoids(b, xs) && Avoids(yes, xs) && Avoids(no, xs)
    case If(b, cons, alt) => Avoids(b, xs) && AvoidsBody(cons, xs) && AvoidsBody(alt, xs)
    case Match(e', arms) => Avoids(e', xs) && AvoidsArms(arms, xs)
    case Assign(l, r) => Avoids(l, xs) && Avoids(r, xs)
  }

  predicate AvoidsOption(e: Option<Expr>, xs: set<string>) {
    e.Some? ==> Avoids(e.value, xs)
  }

  predicate AvoidsAll(es: seq<Expr>, xs: set<string>) {
    es == [] || (Avoids(es[0], xs) && AvoidsAll(es[1..], xs))
  }

  predicate AvoidsArms(arms: seq<Arm>, xs: set<string>) {
    arms == [] || (AvoidsAll(arms[0].heads, xs) && AvoidsBody(arms[0].body, xs) && AvoidsArms(arms[1..], xs))
  }

  predicate AvoidsBody(ss: seq<Stmt>, xs: set<string>) {
    ss == [] || (AvoidsIn(ss[0], xs) && AvoidsBody(ss[1..], xs))
  }

  predicate AvoidsIn(s: Stmt, xs: set<string>) {
    match s
    case Do(e) => Avoids(e, xs)
    case Let(_, e) => Avoids(e, xs)
    case Multi(_, e) => Avoids(e, xs)
    case Unwrap(_, e) => Avoids(e, xs)
    case Function(fn) => AvoidsBody(fn.body, xs)
    case Block(body) => AvoidsBody(body, xs)
    case For(init, cond, update, iter, body) =>
      && AvoidsBody(init, xs) && AvoidsOption(cond, xs) && AvoidsBody(update, xs) && AvoidsBody(body, xs)
      && (iter.Some? ==> Avoids(iter.value.source, xs))
    case Return(e) => AvoidsOption(e, xs)
  }

  // ---------------------------------------------------------------------------------------
  // What the pass leaves

  /** Every occurrence of a constant's name at or below e stands where the pass goes, and names no local and no option
      variant there. Where it does not go, there is none: in the forms that stay as they are, in what a match is on, in
      what is unwrapped and in what a loop runs over. */
  predicate IsReached(e: Expr, c: Constants, k: set<string>) {
    match e
    case Lit(_) => true
    case Name(x) => x in c ==> x !in k && x != "ok" && x != "nil" && x != "err"
    case Op(_, es) => AreReached(es, c, k)
    case Fixed(_, es) => AvoidsAll(es, c.Keys)
    case Call(f, args) => IsReached(f, c, k) && AreReached(args, c, k)
    case Cond(b, yes, no) => IsReached(b, c, k) && IsReached(yes, c, k) && IsReached(no, c, k)
    case If(b, cons, alt) => IsReached(b, c, k) && IsBodyReached(cons, c, k) && IsBodyReached(alt, c, k)
    case Match(e', arms) => Avoids(e', c.Keys) && AreArmsReached(arms, c, k)
    case Assign(l, r) => IsReached(l, c, k) && IsReached(r, c, k)
  }

  predicate IsOptionReached(e: Option<Expr>, c: Constants, k: set<string>) {
    e.Some? ==> IsReached(e.value, c, k)
  }

  predicate AreReached(es: seq<Expr>, c: Constants, k: set<string>) {
    es == [] || (IsReached(es[0], c, k) && AreReached(es[1..], c, k))
  }

  predicate AreArmsReached(arms: seq<Arm>, c: Constants, k: set<string>) {
    arms == []
    || (AreReached(arms[0].heads, c, k) && IsBodyReached(arms[0].body, c, k) && AreArmsReached(arms[1..], c, k))
  }

  predicate IsBodyReached(ss: seq<Stmt>, c: Constants, k: set<string>) {
    ss == [] || (IsStatementReached(ss[0], c, k) && IsBodyReached(ss[1..], c, k))
  }

  predicate IsStatementReached(s: Stmt, c: Constants, k: set<string>) {
    match s
    case Do(e) => IsReached(e, c, k)
    case Let(_, e) => IsReached(e, c, k)
    case Multi(_, e) => IsReached(e, c, k)
    case Unwrap(_, e) => Avoids(e, c.Keys)
    case Function(fn) => IsBodyReached(fn.body, c, LocalsOf(fn, k))
    case Block(body) => IsBodyReached(body, c, k)
    case For(init, cond, update, iter, body) =>
      && IsBodyReached(init, c, k) && IsOptionReached(cond, c, k) && IsBodyReached(update, c, k)
      && IsBodyReached(body, c, k) && (iter.Some? ==> Avoids(iter.value.source, c.Keys))
    case Return(e) => IsOptionReached(e, c, k)
  }

  /** No constant's name is left. */
  lemma {:induction false} NoneIsLeft(e: Expr, c: Constants, k: set<string>)
    requires IsReached(e, c, k)
    ensures Avoids(Resolve(e, c, k), c.Keys)
  {
    match e
    case Lit(_) =>
    case Name(x) => NameBecomes(x, c, k);
    case Op(_, es) => NoneIsLeftOfAll(es, c, k);
    case Fixed(_, _) =>
    case Call(f, args) =>
      NoneIsLeft(f, c, k);
      NoneIsLeftOfAll(args, c, k);
    case Cond(b, yes, no) =>
      NoneIsLeft(b, c, k);
      NoneIsLeft(yes, c, k);
      NoneIsLeft(no, c, k);
    case If(b, cons, alt) =>
      NoneIsLeft(b, c, k);
      NoneIsLeftOfBody(cons, c, k);
      NoneIsLeftOfBody(alt, c, k);
    case Match(_, arms) => NoneIsLeftOfArms(arms, c, k);
    case Assign(l, r) =>
      NoneIsLeft(l, c, k);
      NoneIsLeft(r, c, k);
  }

  lemma {:induction false} NoneIsLeftOfOption(e: Option<Expr>, c: Constants, k: set<string>)
    requires IsOptionReached(e, c, k)
    ensures AvoidsOption(ResolveOption(e, c, k), c.Keys)
  {
    if e.Some? {
      NoneIsLeft(e.value, c, k);
    }
  }

  lemma {:induction false} NoneIsLeftOfAll(es: seq<Expr>, c: Constants, k: set<string>)
    requires AreReached(es, c, k)
    ensures AvoidsAll(ResolveAll(es, c, k), c.Keys)
  {
    if es != [] {
      NoneIsLeft(es[0], c, k);
      NoneIsLeftOfAll(es[1..], c, k);
      assert ResolveAll(es, c, k)[1..] == ResolveAll(es[1..], c, k);
    }
  }

  lemma {:induction false} NoneIsLeftOfArms(arms: seq<Arm>, c: Constants, k: set<string>)
    requires AreArmsReached(arms, c, k)
    ensures AvoidsArms(ResolveArms(arms, c, k), c.Keys)
  {
    if arms != [] {
      NoneIsLeftOfAll(arms[0].heads, c, k);
      NoneIsLeftOfBody(arms[0].body, c, k);
      NoneIsLeftOfArms(arms[1..], c, k);
      assert ResolveArms(arms, c, k)[1..] == ResolveArms(arms[1..], c, k);
    }
  }

  lemma {:induction false} NoneIsLeftOfBody(ss: seq<Stmt>, c: Constants, k: set<string>)
    requires IsBodyReached(ss, c, k)
    ensures AvoidsBody(ResolveBody(ss, c, k), c.Keys)
  {
    if ss != [] {
      NoneIsLeftIn(ss[0], c, k);
      NoneIsLeftOfBody(ss[1..], c, k);
      assert ResolveBody(ss, c, k)[1..] == ResolveBody(ss[1..], c, k);
    }
  }

  lemma {:induction false} NoneIsLeftIn(s: Stmt, c: Constants, k: set<string>)
    requires IsStatementReached(s, c, k)
    ensures AvoidsIn(ResolveStmt(s, c, k), c.Keys)
  {
    match s
    case Do(e) => NoneIsLeft(e, c, k);
    case Let(_, e) => NoneIsLeft(e, c, k);
    case Multi(_, e) => NoneIsLeft(e, c, k);
    case Unwrap(_, _) =>
    case Function(fn) => NoneIsLeftOfBody(fn.body, c, LocalsOf(fn, k));
    case Block(body) => NoneIsLeftOfBody(body, c, k);
    case For(init, cond, update, _, body) =>
      NoneIsLeftOfBody(init, c, k);
      NoneIsLeftOfOption(cond, c, k);
      NoneIsLeftOfBody(update, c, k);
      NoneIsLeftOfBody(body, c, k);
    case Return(e) => NoneIsLeftOfOption(e, c, k);
  }

  // ---------------------------------------------------------------------------------------
  // Code that needs no constants

  /** The module without its constants. */
  function Bare(m: Machine): Machine {
    m.(c := map[])
  }

  ghost predicate IsClean(v: Value, xs: set<string>)
    decreases v
  {
    v.Closure? ==> AvoidsBody(v.fn.body, xs) && IsCleanEnv(v.env, xs)
  }

  ghost predicate IsCleanEnv(env: Env, xs: set<string>)
    decreases env
  {
    env == [] || (IsClean(env[0].value, xs) && IsCleanEnv(env[1..], xs))
  }

  ghost predicate AreClean(vs: seq<Value>, xs: set<string>) {
    forall i :: 0 <= i < |vs| ==> IsClean(vs[i], xs)
  }

  ghost predicate IsCleanOutcome(o: Outcome, xs: set<string>) {
    match o
    case Ok(v, env) => IsClean(v, xs) && IsCleanEnv(env, xs)
    case Returned(v, env) => (v.Some? ==> IsClean(v.value, xs)) && IsCleanEnv(env, xs)
    case _ => true
  }

  ghost predicate IsCleanMany(r: Many, xs: set<string>) {
    match r
    case Vals(vs, env) => AreClean(vs, xs) && IsCleanEnv(env, xs)
    case Abrupt(o) => IsCleanOutcome(o, xs)
  }

  /** No function of the module needs its constants. */
  ghost predicate IsSelfContained(m: Machine) {
    forall f :: f in m.functions ==> AvoidsBody(m.functions[f].body, m.c.Keys)
  }

  lemma {:induction false} CleanValueIn(env: Env, x: string, xs: set<string>)
    requires IsCleanEnv(env, xs) && Binds(env, x)
    ensures IsClean(ValueIn(env, x), xs)
  {
    if env[0].name != x {
      CleanValueIn(env[1..], x, xs);
    }
  }

  lemma CleanBinding(x: string, v: Value, env: Env, xs: set<string>)
    requires IsClean(v, xs) && IsCleanEnv(env, xs)
    ensures IsCleanEnv([Binding(x, v)] + env, xs)
  {
    assert ([Binding(x, v)] + env)[1..] == env;
  }

  lemma CleanBound(x: string, o: Outcome, xs: set<string>)
    requires IsCleanOutcome(o, xs)
    ensures IsCleanOutcome(ModuleConsts.Bound(x, o), xs)
  {
    if o.Ok? {
      CleanBinding(x, o.v, o.env, xs);
    }
  }

  lemma {:induction false} CleanBindAll(names: seq<string>, vs: seq<Value>, env: Env, xs: set<string>)
    requires AreClean(vs, xs) && IsCleanEnv(env, xs)
    ensures IsCleanEnv(BindAll(names, vs, env), xs)
    decreases |names|
  {
    if names != [] {
      var rest := if vs == [] then [] else vs[1..];
      CleanBindAll(names[1..], rest, env, xs);
      CleanBinding(names[0], if vs == [] then Unit else vs[0], BindAll(names[1..], rest, env), xs);
    }
  }

  lemma {:induction false} BasesAreClean(lits: seq<Literal>, xs: set<string>)
    ensures AreClean(Bases(lits), xs)
  {
    if lits != [] {
      BasesAreClean(lits[1..], xs);
    }
  }

  lemma {:induction false} CleanRestrict(after: Env, before: Env, xs: set<string>)
    requires IsCleanEnv(after, xs)
    ensures IsCleanEnv(Restrict(after, before), xs)
  {
    if after != [] {
      CleanRestrict(after[1..], before, xs);
      if Binds(before, after[0].name) {
        CleanBinding(after[0].name, after[0].value, Restrict(after[1..], before), xs);
      }
    }
  }

  lemma CleanLeave(o: Outcome, before: Env, m: Machine, xs: set<string>)
    requires IsCleanOutcome(o, xs)
    ensures IsCleanOutcome(Leave(o, before, m), xs)
    ensures Leave(o, before, Bare(m)) == Leave(o, before, m)
  {
    if o.Ok? {
      CleanRestrict(o.env, before, xs);
    }
  }

  lemma CleanFrame(f: Value, vs: seq<Value>, xs: set<string>)
    requires f.Closure? && IsClean(f, xs) && AreClean(vs, xs)
    ensures IsCleanEnv(Frame(f, vs), xs)
  {
    CleanBindAll(f.fn.results, [], f.env, xs);
    CleanBindAll(f.fn.params, vs, BindAll(f.fn.results, [], f.env), xs);
  }

  lemma CleanGiven(fn: Fn, o: Outcome, xs: set<string>)
    requires IsCleanOutcome(o, xs)
    ensures IsCleanOutcome(Given(fn, o), xs)
  {
    if (o.Ok? || o.Returned?) && fn.results != [] && Binds(o.env, fn.results[0]) {
      CleanValueIn(o.env, fn.results[0], xs);
    }
  }

  /** A name that is no constant's means the same without them. */
  lemma BareName(x: string, env: Env, m: Machine)
    requires IsSelfContained(m) && IsCleanEnv(env, m.c.Keys) && x !in m.c
    ensures Lookup(x, env, Bare(m)) == Lookup(x, env, m) && IsCleanOutcome(Lookup(x, env, m), m.c.Keys)
  {
    if Binds(env, x) {
      CleanValueIn(env, x, m.c.Keys);
    }
  }

  /** Code that does not name the constants runs the same without them. */
  lemma {:induction false} BareEval(e: Expr, env: Env, m: Machine, fuel: nat)
    requires IsSelfContained(m) && IsCleanEnv(env, m.c.Keys) && Avoids(e, m.c.Keys)
    ensures Eval(e, env, Bare(m), fuel) == Eval(e, env, m, fuel)
    ensures IsCleanOutcome(Eval(e, env, m, fuel), m.c.Keys)
    decreases fuel
  {
    if fuel > 0 {
      match e
      case Lit(_) =>
      case Name(x) => BareName(x, env, m);
      case Op(op, es) => BareOp(op, es, env, m, fuel - 1);
      case Fixed(op, es) => BareOp(op, es, env, m, fuel - 1);
      case Call(f, args) => BareCall(f, args, env, m, fuel - 1);
      case Cond(_, _, _) => BareCond(e, env, m, fuel);
      case If(_, _, _) => BareIf(e, env, m, fuel);
      case Match(e', arms) =>
        BareEval(e', env, m, fuel - 1);
        var o := Eval(e', env, m, fuel - 1);
        if o.Ok? && o.v.Base? {
          BareArms(o.v.lit, arms, o.env, m, fuel - 1);
        }
      case Assign(l, r) => BareAssign(l, r, env, m, fuel);
    }
  }

  lemma {:induction false} BareCond(e: Expr, env: Env, m: Machine, fuel: nat)
    requires IsSelfContained(m) && IsCleanEnv(env, m.c.Keys) && Avoids(e, m.c.Keys) && e.Cond? && fuel > 0
    ensures Eval(e, env, Bare(m), fuel) == Eval(e, env, m, fuel)
    ensures IsCleanOutcome(Eval(e, env, m, fuel), m.c.Keys)
    decreases fuel, 0
  {
    BareEval(e.cond, env, m, fuel - 1);
    var o := Eval(e.cond, env, m, fuel - 1);
    if o.Ok? && o.v.Base? {
      BareEval(if m.holds(o.v.lit) then e.yes else e.no, o.env, m, fuel - 1);
    }
  }

  lemma {:induction false} BareIf(e: Expr, env: Env, m: Machine, fuel: nat)
    requires IsSelfContained(m) && IsCleanEnv(env, m.c.Keys) && Avoids(e, m.c.Keys) && e.If? && fuel > 0
    ensures Eval(e, env, Bare(m), fuel) == Eval(e, env, m, fuel)
    ensures IsCleanOutcome(Eval(e, env, m, fuel), m.c.Keys)
    decreases fuel, 0
  {
    BareEval(e.cond, env, m, fuel - 1);
    var o := Eval(e.cond, env, m, fuel - 1);
    if o.Ok? && o.v.Base? {
      var arm := if m.holds(o.v.lit) then e.cons else e.alt;
      BareExec(arm, o.env, m, fuel - 1);
      CleanLeave(Exec(arm, o.env, m, fuel - 1), o.env, m, m.c.Keys);
    }
  }

  lemma {:induction false} BareAssign(l: Expr, r: Expr, env: Env, m: Machine, fuel: nat)
    requires IsSelfContained(m) && IsCleanEnv(env, m.c.Keys) && Avoids(l, m.c.Keys) && Avoids(r, m.c.Keys) && fuel > 0
    ensures Eval(Assign(l, r), env, Bare(m), fuel) == Eval(Assign(l, r), env, m, fuel)
    ensures IsCleanOutcome(Eval(Assign(l, r), env, m, fuel), m.c.Keys)
    decreases fuel, 0
  {
    if l.Name? {
      BareEval(r, env, m, fuel - 1);
      CleanBound(l.name, Eval(r, env, m, fuel - 1), m.c.Keys);
    } else {
      assert [l, r][1..] == [r] && [r][1..] == [];
      BareOp("=", [l, r], env, m, fuel - 1);
    }
  }

  lemma {:induction false} BareOp(op: string, es: seq<Expr>, env: Env, m: Machine, fuel: nat)
    requires IsSelfContained(m) && IsCleanEnv(env, m.c.Keys) && AvoidsAll(es, m.c.Keys)
    ensures EvalOp(op, es, env, Bare(m), fuel) == EvalOp(op, es, env, m, fuel)
    ensures IsCleanOutcome(EvalOp(op, es, env, m, fuel), m.c.Keys)
    decreases fuel
  {
    if fuel > 0 {
      BareAll(es, env, m, fuel - 1);
    }
  }

  lemma {:induction false} BareAll(es: seq<Expr>, env: Env, m: Machine, fuel: nat)
    requires IsSelfContained(m) && IsCleanEnv(env, m.c.Keys) && AvoidsAll(es, m.c.Keys)
    ensures EvalAll(es, env, Bare(m), fuel) == EvalAll(es, env, m, fuel)
    ensures IsCleanMany(EvalAll(es, env, m, fuel), m.c.Keys)
    decreases fuel
  {
    if es != [] && fuel > 0 {
      BareEval(es[0], env, m, fuel - 1);
      var o := Eval(es[0], env, m, fuel - 1);
      if o.Ok? {
        BareAll(es[1..], o.env, m, fuel - 1);
      }
    }
  }

  lemma {:induction false} BareCall(f: Expr, args: seq<Expr>, env: Env, m: Machine, fuel: nat)
    requires IsSelfContained(m) && IsCleanEnv(env, m.c.Keys) && Avoids(f, m.c.Keys) && AvoidsAll(args, m.c.Keys)
    ensures EvalCall(f, args, env, Bare(m), fuel) == EvalCall(f, args, env, m, fuel)
    ensures IsCleanOutcome(EvalCall(f, args, env, m, fuel), m.c.Keys)
    decreases fuel
  {
    if fuel > 0 {
      BareEval(f, env, m, fuel - 1);
      var o := Eval(f, env, m, fuel - 1);
      if o.Ok? {
        BareAll(args, o.env, m, fuel - 1);
        BareCalled(o.v, EvalAll(args, o.env, m, fuel - 1), m, fuel - 1);
      }
    }
  }

  lemma {:induction false} BareCalled(f: Value, args: Many, m: Machine, fuel: nat)
    requires IsSelfContained(m) && IsClean(f, m.c.Keys) && IsCleanMany(args, m.c.Keys)
    ensures Called(f, args, Bare(m), fuel) == Called(f, args, m, fuel)
    ensures IsCleanOutcome(Called(f, args, m, fuel), m.c.Keys)
    decreases fuel, 1
  {
    if args.Vals? {
      BareInvoke(f, args.vs, m, fuel);
    }
  }

  lemma {:induction false} BareInvoke(f: Value, vs: seq<Value>, m: Machine, fuel: nat)
    requires IsSelfContained(m) && IsClean(f, m.c.Keys) && AreClean(vs, m.c.Keys)
    ensures Invoke(f, vs, Bare(m), fuel) == Invoke(f, vs, m, fuel)
    ensures IsCleanOutcome(Invoke(f, vs, m, fuel), m.c.Keys)
    decreases fuel, 0
  {
    if fuel > 0 && f.Closure? {
      CleanFrame(f, vs, m.c.Keys);
      BareExec(f.fn.body, Frame(f, vs), m, fuel - 1);
      CleanGiven(f.fn, Exec(f.fn.body, Frame(f, vs), m, fuel - 1), m.c.Keys);
    }
  }

  lemma {:induction false} BareArms(l: Literal, arms: seq<Arm>, env: Env, m: Machine, fuel: nat)
    requires IsSelfContained(m) && IsCleanEnv(env, m.c.Keys) && AvoidsArms(arms, m.c.Keys)
    ensures EvalArms(l, arms, env, Bare(m), fuel) == EvalArms(l, arms, env, m, fuel)
    ensures IsCleanOutcome(EvalArms(l, arms, env, m, fuel), m.c.Keys)
    decreases fuel
  {
    if arms != [] && fuel > 0 {
      BareAll(arms[0].heads, env, m, fuel - 1);
      var r := EvalAll(arms[0].heads, env, m, fuel - 1);
      if r.Vals? {
        BareArmBody(l, arms[0], r.env, m, fuel - 1);
        BareArms(l, arms[1..], r.env, m, fuel - 1);
      }
    }
  }

  lemma {:induction false} BareArmBody(l: Literal, arm: Arm, env: Env, m: Machine, fuel: nat)
    requires IsSelfContained(m) && IsCleanEnv(env, m.c.Keys) && AvoidsBody(arm.body, m.c.Keys)
    ensures var inner := BindAll(arm.binds, Bases(m.items(l)), env);
            var o := Leave(Exec(arm.body, inner, m, fuel), env, m);
            Leave(Exec(arm.body, inner, Bare(m), fuel), env, Bare(m)) == o && IsCleanOutcome(o, m.c.Keys)
    decreases fuel, 1
  {
    BasesAreClean(m.items(l), m.c.Keys);
    CleanBindAll(arm.binds, Bases(m.items(l)), env, m.c.Keys);
    BareBody(arm.body, BindAll(arm.binds, Bases(m.items(l)), env), env, m, fuel);
  }

  /** A body that is left for the bindings in force before it. */
  lemma {:induction false} BareBody(ss: seq<Stmt>, env: Env, before: Env, m: Machine, fuel: nat)
    requires IsSelfContained(m) && IsCleanEnv(env, m.c.Keys) && AvoidsBody(ss, m.c.Keys)
    ensures Leave(Exec(ss, env, Bare(m), fuel), before, Bare(m)) == Leave(Exec(ss, env, m, fuel), before, m)
    ensures IsCleanOutcome(Leave(Exec(ss, env, m, fuel), before, m), m.c.Keys)
    decreases fuel, 0, 1
  {
    BareExec(ss, env, m, fuel);
    CleanLeave(Exec(ss, env, m, fuel), before, m, m.c.Keys);
  }

  lemma {:induction false} BareExec(ss: seq<Stmt>, env: Env, m: Machine, fuel: nat)
    requires IsSelfContained(m) && IsCleanEnv(env, m.c.Keys) && AvoidsBody(ss, m.c.Keys)
    ensures Exec(ss, env, Bare(m), fuel) == Exec(ss, env, m, fuel)
    ensures IsCleanOutcome(Exec(ss, env, m, fuel), m.c.Keys)
    decreases fuel, 0, 0
  {
    if ss != [] && fuel > 0 {
      BareStep(ss[0], env, m, fuel - 1);
      var o := Step(ss[0], env, m, fuel - 1);
      if o.Ok? {
        BareExec(ss[1..], o.env, m, fuel - 1);
      }
    }
  }

  lemma {:induction false} BareStep(s: Stmt, env: Env, m: Machine, fuel: nat)
    requires IsSelfContained(m) && IsCleanEnv(env, m.c.Keys) && AvoidsIn(s, m.c.Keys)
    ensures Step(s, env, Bare(m), fuel) == Step(s, env, m, fuel)
    ensures IsCleanOutcome(Step(s, env, m, fuel), m.c.Keys)
    decreases fuel
  {
    if fuel > 0 {
      match s
      case Do(e) => BareEval(e, env, m, fuel - 1);
      case Let(x, e) =>
        BareEval(e, env, m, fuel - 1);
        CleanBound(x, Eval(e, env, m, fuel - 1), m.c.Keys);
      case Multi(xs, e) =>
        BareEval(e, env, m, fuel - 1);
        var o := Eval(e, env, m, fuel - 1);
        if o.Ok? && o.v.Base? {
          BasesAreClean(m.items(o.v.lit), m.c.Keys);
          CleanBindAll(xs, Bases(m.items(o.v.lit)), o.env, m.c.Keys);
        }
      case Unwrap(x, e) =>
        BareEval(e, env, m, fuel - 1);
        CleanBound(x, Eval(e, env, m, fuel - 1), m.c.Keys);
      case Function(fn) => CleanBinding(fn.name, Closure(fn, env), env, m.c.Keys);
      case Block(body) => BareBody(body, env, env, m, fuel - 1);
      case For(_, _, _, _, _) => BareFor(s, env, m, fuel);
      case Return(e) =>
        if e.Some? {
          BareEval(e.value, env, m, fuel - 1);
        }
    }
  }

  lemma {:induction false} BareFor(s: Stmt, env: Env, m: Machine, fuel: nat)
    requires IsSelfContained(m) && IsCleanEnv(env, m.c.Keys) && AvoidsIn(s, m.c.Keys) && s.For? && fuel > 0
    ensures Step(s, env, Bare(m), fuel) == Step(s, env, m, fuel)
    ensures IsCleanOutcome(Step(s, env, m, fuel), m.c.Keys)
    decreases fuel, 0
  {
    BareExec(s.init, env, m, fuel - 1);
    var o := Exec(s.init, env, m, fuel - 1);
    if o.Ok? {
      if s.iter.None? {
        BareLoop(s.cond, s.update, s.body, o.env, m, fuel - 1);
        CleanLeave(Loop(s.cond, s.update, s.body, o.env, m, fuel - 1), env, m, m.c.Keys);
      } else {
        BareEval(s.iter.value.source, o.env, m, fuel - 1);
        var v := Eval(s.iter.value.source, o.env, m, fuel - 1);
        if v.Ok? && v.v.Base? {
          var x, items := s.iter.value.variable, m.items(v.v.lit);
          BareEach(x, items, s.body, v.env, m, fuel - 1);
          CleanLeave(Each(x, items, s.body, v.env, m, fuel - 1), env, m, m.c.Keys);
        }
      }
    }
  }

  lemma {:induction false} BareLoop(cond: Option<Expr>, update: seq<Stmt>, body: seq<Stmt>, env: Env, m: Machine,
                                    fuel: nat)
    requires IsSelfContained(m) && IsCleanEnv(env, m.c.Keys)
    requires AvoidsOption(cond, m.c.Keys) && AvoidsBody(update, m.c.Keys) && AvoidsBody(body, m.c.Keys)
    ensures Loop(cond, update, body, env, Bare(m), fuel) == Loop(cond, update, body, env, m, fuel)
    ensures IsCleanOutcome(Loop(cond, update, body, env, m, fuel), m.c.Keys)
    decreases fuel, 2
  {
    if fuel > 0 {
      var o := Ok(Base(""), env);
      if cond.Some? {
        BareEval(cond.value, env, m, fuel - 1);
        o := Eval(cond.value, env, m, fuel - 1);
      }
      if o.Ok? && o.v.Base? && !(cond.Some? && !m.holds(o.v.lit)) {
        BareRound(cond, update, body, o.env, m, fuel);
      }
    }
  }

  lemma {:induction false} BareRound(cond: Option<Expr>, update: seq<Stmt>, body: seq<Stmt>, env: Env, m: Machine,
                                     fuel: nat)
    requires IsSelfContained(m) && IsCleanEnv(env, m.c.Keys) && fuel > 0
    requires AvoidsOption(cond, m.c.Keys) && AvoidsBody(update, m.c.Keys) && AvoidsBody(body, m.c.Keys)
    ensures Round(cond, update, body, env, Bare(m), fuel - 1) == Round(cond, update, body, env, m, fuel - 1)
    ensures IsCleanOutcome(Round(cond, update, body, env, m, fuel - 1), m.c.Keys)
    decreases fuel, 1
  {
    BareBody(body, env, env, m, fuel - 1);
    var once := Leave(Exec(body, env, m, fuel - 1), env, m);
    if once.Ok? {
      BareExec(update, once.env, m, fuel - 1);
      var next := Exec(update, once.env, m, fuel - 1);
      if next.Ok? {
        BareLoop(cond, update, body, next.env, m, fuel - 1);
      }
    }
  }

  lemma {:induction false} BareEach(x: string, items: seq<Literal>, body: seq<Stmt>, env: Env, m: Machine, fuel: nat)
    requires IsSelfContained(m) && IsCleanEnv(env, m.c.Keys) && AvoidsBody(body, m.c.Keys)
    ensures Each(x, items, body, env, Bare(m), fuel) == Each(x, items, body, env, m, fuel)
    ensures IsCleanOutcome(Each(x, items, body, env, m, fuel), m.c.Keys)
    decreases fuel
  {
    if items != [] && fuel > 0 {
      var inner := [Binding(x, Base(items[0]))] + env;
      CleanBinding(x, Base(items[0]), env, m.c.Keys);
      BareBody(body, inner, env, m, fuel - 1);
      var once := Leave(Exec(body, inner, m, fuel - 1), env, m);
      if once.Ok? {
        BareEach(x, items[1..], body, once.env, m, fuel - 1);
      }
    }
  }

  // ---------------------------------------------------------------------------------------
  // The constants are not needed after the pass

  /** In every function, constants are named only where the pass replaces them. */
  predicate AllReached(m: Machine) {
    forall f :: f in m.functions ==> IsBodyReached(m.functions[f].body, m.c, LocalsOf(m.functions[f], {}))
  }

  lemma ReachedIsSelfContained(m: Machine)
    requires AllReached(m)
    ensures IsSelfContained(Resolved(m))
  {
    forall f | f in m.functions
      ensures AvoidsBody(Resolved(m).functions[f].body, m.c.Keys)
    {
      NoneIsLeftOfBody(m.functions[f].body, m.c, LocalsOf(m.functions[f], {}));
    }
  }

  /** With its constants taken away after the pass, every function runs as it did before the pass with them. */
  lemma RunsWithoutConstants(name: string, args: seq<Literal>, m: Machine, fuel: nat)
    requires AllClear(m) && AllReached(m) && name in m.functions
    ensures Run(name, args, Bare(Resolved(m)), fuel) == Run(name, args, m, fuel)
  {
    RunsAreKept(name, args, m, fuel);
    ReachedIsSelfContained(m);
    BasesAreClean(args, m.c.Keys);
    BareInvoke(Closure(Resolved(m).functions[name], []), Bases(args), Resolved(m), fuel);
  }

  /** So do the statements of the top level. */
  lemma TopRunsWithoutConstants(p: seq<Stmt>, x: string, m: Machine, fuel: nat)
    requires AllClear(m) && AllReached(m) && ClearBody(p, m.c, {}) && IsBodyReached(p, m.c, {})
    ensures RunTop(ResolveBody(p, m.c, {}), x, Bare(Resolved(m)), fuel) == RunTop(p, x, m, fuel)
  {
    TopIsKept(p, x, m, fuel);
    ReachedIsSelfContained(m);
    NoneIsLeftOfBody(p, m.c, {});
    BareExec(ResolveBody(p, m.c, {}), [], Resolved(m), fuel);
  }
}

/** Replacing module constants by their literals, and the meaning of the programs it is done to. */
module ModuleConsts {
  import opened Wrappers

  // ---------------------------------------------------------------------------------------
  // Programs

  type Literal = string

  datatype Expr =
    | Lit(value: Literal)
    | Name(name: string)
    | Op(op: string, operands: seq<Expr>) // infix, prefix, grouped, index and slice expressions
    | Fixed(op: string, operands: seq<Expr>) // forms that the pass does not enter, such as array literals
    | Call(callee: Expr, args: seq<Expr>)
    | Cond(cond: Expr, yes: Expr, no: Expr)
    | If(cond: Expr, cons: seq<Stmt>, alt: seq<Stmt>)
    | Match(matched: Expr, arms: seq<Arm>)
    | Assign(left: Expr, right: Expr)

  datatype Arm = Arm(heads: seq<Expr>, binds: seq<string>, body: seq<Stmt>) // heads: the condition and the patterns

  datatype Stmt =
    | Do(e: Expr)
    | Let(name: string, e: Expr)
    | Multi(names: seq<string>, e: Expr)
    | Unwrap(name: string, e: Expr)
    | Function(fn: Fn)
    | Block(body: seq<Stmt>)
    | For(init: seq<Stmt>, cond: Option<Expr>, update: seq<Stmt>, iter: Option<Iter>, body: seq<Stmt>)
    | Return(result: Option<Expr>) // the parser leaves None; the pass rewrites what there is

  datatype Iter = Iter(variable: string, source: Expr)

  datatype Fn = Fn(name: string, params: seq<string>, results: seq<string>, body: seq<Stmt>)

  type Constants = map<string, Literal>

  // ---------------------------------------------------------------------------------------
  // The pass

  function Named(names: seq<string>): set<string> {
    set x | x in names
  }

  /** The names that the pass takes to be local because a statement list binds them. */
  function Collected(ss: seq<Stmt>): set<string> {
    if ss == [] then {} else CollectedIn(ss[0]) + Collected(ss[1..])
  }

  function CollectedIn(s: Stmt): set<string> {
    match s
    case Let(x, _) => {x}
    case Function(fn) => Named(fn.params) + Named(fn.results) + Collected(fn.body)
    case For(init, _, _, iter, body) =>
      (if init != [] && init[0].Let? then {init[0].name} else {})
        + (if iter.Some? && iter.value.variable != "" then {iter.value.variable} else {})
        + Collected(body)
    case Block(body) => Collected(body)
    case _ => {}
  }

  /** The locals of a function that stands where `outer` are local. */
  function LocalsOf(fn: Fn, outer: set<string>): set<string> {
    outer + Named(fn.params) + Named(fn.results) + Collected(fn.body)
  }

  /** The names of the option variants are never replaced. */
  const VARIANTS := {"ok", "nil", "err"}

  predicate Replaced(x: string, c: Constants, locals: set<string>) {
    x !in VARIANTS && x !in locals && x in c
  }

  function Resolve(e: Expr, c: Constants, locals: set<string>): Expr {
    match e
    case Name(x) => if Replaced(x, c, locals) then Lit(c[x]) else e
    case Op(op, es) => Op(op, ResolveAll(es, c, locals))
    case Call(f, args) => Call(Resolve(f, c, locals), ResolveAll(args, c, locals))
    case Cond(b, yes, no) => Cond(Resolve(b, c, locals), Resolve(yes, c, locals), Resolve(no, c, locals))
    case If(b, cons, alt) => If(Resolve(b, c, locals), ResolveBody(cons, c, locals), ResolveBody(alt, c, locals))
    case Match(m, arms) => Match(m, ResolveArms(arms, c, locals))
    case Assign(l, r) => Assign(Resolve(l, c, locals), Resolve(r, c, locals))
    case _ => e
  }

  function ResolveOption(e: Option<Expr>, c: Constants, locals: set<string>): Option<Expr> {
    if e.Some? then Some(Resolve(e.value, c, locals)) else None
  }

  function ResolveAll(es: seq<Expr>, c: Constants, locals: set<string>): seq<Expr> {
    if es == [] then [] else [Resolve(es[0], c, locals)] + ResolveAll(es[1..], c, locals)
  }

  function ResolveArms(arms: seq<Arm>, c: Constants, locals: set<string>): seq<Arm> {
    if arms == [] then []
    else [Arm(ResolveAll(arms[0].heads, c, locals), arms[0].binds, ResolveBody(arms[0].body, c, locals))]
         + ResolveArms(arms[1..], c, locals)
  }

  function ResolveBody(ss: seq<Stmt>, c: Constants, locals: set<string>): seq<Stmt> {
    if ss == [] then [] else [ResolveStmt(ss[0], c, locals)] + ResolveBody(ss[1..], c, locals)
  }

  function ResolveStmt(s: Stmt, c: Constants, locals: set<string>): Stmt {
    match s
    case Do(e) => Do(Resolve(e, c, locals))
    case Let(x, e) => Let(x, Resolve(e, c, locals))
    case Multi(xs, e) => Multi(xs, Resolve(e, c, locals))
    case Function(fn) => Function(ResolveFn(fn, c, locals))
    case Block(body) => Block(ResolveBody(body, c, locals))
    case For(init, cond, update, iter, body) =>
      For(ResolveBody(init, c, locals), ResolveOption(cond, c, locals), ResolveBody(update, c, locals), iter,
          ResolveBody(body, c, locals))
    case Return(e) => Return(ResolveOption(e, c, locals))
    case _ => s
  }

  function ResolveFn(fn: Fn, c: Constants, outer: set<string>): Fn {
    Fn(fn.name, fn.params, fn.results, ResolveBody(fn.body, c, LocalsOf(fn, outer)))
  }

  lemma {:induction false} CollectedOfConcat(a: seq<Stmt>, b: seq<Stmt>)
    ensures Collected(a + b) == Collected(a) + Collected(b)
  {
    if a == [] {
      assert a + b == b;
    } else {
      CollectedOfConcat(a[1..], b);
      assert (a + b)[1..] == a[1..] + b;
    }
  }

  /** The map of local names, which grows while a body is walked. */
  class LocalNames {
    var names: set<string>

    constructor (names: set<string>)
      ensures this.names == names
    {
      this.names := names;
    }

    method Add(xs: seq<string>)
      modifies this
      ensures names == old(names) + Named(xs)
    {
      for i := 0 to |xs|
        invariant names == old(names) + Named(xs[..i])
      {
        names := names + {xs[i]};
      }
      assert xs[..|xs|] == xs;
    }

    method Collect(body: seq<Stmt>)
      modifies this
      ensures names == old(names) + Collected(body)
      decreases body
    {
      for i := 0 to |body|
        invariant names == old(names) + Collected(body[..i])
      {
        CollectFrom(body[i]);
        assert body[..i + 1] == body[..i] + [body[i]] && [body[i]][1..] == [];
        CollectedOfConcat(body[..i], [body[i]]);
      }
      assert body[..|body|] == body;
    }

    method CollectFrom(s: Stmt)
      modifies this
      ensures names == old(names) + CollectedIn(s)
      decreases s
    {
      match s
      case Let(x, _) => names := names + {x};
      case Function(fn) =>
        Add(fn.params);
        Add(fn.results);
        Collect(fn.body);
      case For(init, _, _, iter, body) =>
        if |init| > 0 && init[0].Let? {
          names := names + {init[0].name};
        }
        if iter.Some? && iter.value.variable != "" {
          names := names + {iter.value.variable};
        }
        Collect(body);
      case Block(body) => Collect(body);
      case _ =>
    }
  }

  /** The locals of a function, gathered as the pass enters it. */
  method GatherLocals(fn: Fn, outer: set<string>) returns (locals: set<string>)
    ensures locals == LocalsOf(fn, outer)
  {
    var l := new LocalNames(outer);
    l.Add(fn.params);
    l.Add(fn.results);
    l.Collect(fn.body);
    locals := l.names;
  }

  lemma {:induction false} ResolvedAt(es: seq<Expr>, c: Constants, locals: set<string>, i: nat)
    requires i < |es|
    ensures |ResolveAll(es, c, locals)| == |es| && ResolveAll(es, c, locals)[i] == Resolve(es[i], c, locals)
  {
    if i > 0 {
      ResolvedAt(es[1..], c, locals, i - 1);
    } else if |es| > 1 {
      ResolvedAt(es[1..], c, locals, 0);
    }
  }

  /** The arguments of a call are overwritten one by one. */
  method ResolveArguments(args: array<Expr>, c: Constants, locals: set<string>)
    modifies args
    ensures args[..] == ResolveAll(old(args[..]), c, locals)
  {
    ghost var was := args[..];
    for i := 0 to args.Length
      invariant forall j :: i <= j < args.Length ==> args[j] == was[j]
      invariant forall j :: 0 <= j < i ==> args[j] == Resolve(was[j], c, locals)
    {
      args[i] := Resolve(args[i], c, locals);
    }
    assert was == [] ==> ResolveAll(was, c, locals) == [];
    forall i | 0 <= i < |was|
      ensures |ResolveAll(was, c, locals)| == |was| && ResolveAll(was, c, locals)[i] == args[..][i]
    {
      ResolvedAt(was, c, locals, i);
    }
  }

  // ---------------------------------------------------------------------------------------
  // What programs mean

  datatype Value = Unit | Base(lit: Literal) | Closure(fn: Fn, env: Env)

  /** The bindings in force, the latest first. */
  type Env = seq<Binding>

  datatype Binding = Binding(name: string, value: Value)

  /** The rest of the language: its operators, and which of two ways of scoping it has. Under block
      scoping a name bound in a block is gone after it. */
  datatype Machine = Machine(
    c: Constants,
    functions: map<string, Fn>,
    apply: (string, seq<Literal>) -> Option<Literal>,
    holds: Literal -> bool,
    items: Literal -> seq<Literal>,
    selects: (Literal, seq<Literal>) -> bool,
    blockScoped: bool)

  datatype Outcome = Ok(v: Value, env: Env) | Returned(result: Option<Value>, env: Env) | Stuck | OutOfFuel
  datatype Many = Vals(vs: seq<Value>, env: Env) | Abrupt(o: Outcome)

  predicate Binds(env: Env, x: string) {
    env != [] && (env[0].name == x || Binds(env[1..], x))
  }

  function ValueIn(env: Env, x: string): Value
    requires Binds(env, x)
  {
    if env[0].name == x then env[0].value else ValueIn(env[1..], x)
  }

  function BindAll(xs: seq<string>, vs: seq<Value>, env: Env): Env {
    if xs == [] then env
    else [Binding(xs[0], if vs == [] then Unit else vs[0])] + BindAll(xs[1..], if vs == [] then [] else vs[1..], env)
  }

  function Bases(lits: seq<Literal>): seq<Value> {
    if lits == [] then [] else [Base(lits[0])] + Bases(lits[1..])
  }

  /** The bindings of names that were bound before the block. */
  function Restrict(after: Env, before: Env): Env {
    if after == [] then []
    else if Binds(before, after[0].name) then [after[0]] + Restrict(after[1..], before)
    else Restrict(after[1..], before)
  }

  function Leave(o: Outcome, before: Env, m: Machine): Outcome {
    if o.Ok? && m.blockScoped then Ok(o.v, Restrict(o.env, before)) else o
  }

  /** A name means its binding, or else a constant, or else a function of the module. */
  function Lookup(x: string, env: Env, m: Machine): Outcome {
    if Binds(env, x) then Ok(ValueIn(env, x), env)
    else if x in m.c then Ok(Base(m.c[x]), env)
    else if x in m.functions then Ok(Closure(m.functions[x], []), env)
    else Stuck
  }

  function LitsOf(vs: seq<Value>): Option<seq<Literal>> {
    if vs == [] then Some([])
    else
      var rest := LitsOf(vs[1..]);
      if vs[0].Base? && rest.Some? then Some([vs[0].lit] + rest.value) else None
  }

  function Applied(op: string, vs: seq<Value>, env: Env, m: Machine): Outcome {
    var lits := LitsOf(vs);
    if lits.None? then Stuck
    else
      var r := m.apply(op, lits.value);
      if r.Some? then Ok(Base(r.value), env) else Stuck
  }

  function Eval(e: Expr, env: Env, m: Machine, fuel: nat): Outcome
    decreases fuel
  {
    if fuel == 0 then OutOfFuel
    else
      match e
      case Lit(l) => Ok(Base(l), env)
      case Name(x) => Lookup(x, env, m)
      case Op(op, es) => EvalOp(op, es, env, m, fuel - 1)
      case Fixed(op, es) => EvalOp(op, es, env, m, fuel - 1)
      case Call(f, args) => EvalCall(f, args, env, m, fuel - 1)
      case Cond(b, yes, no) =>
        var o := Eval(b, env, m, fuel - 1);
        if !o.Ok? then o
        else if !o.v.Base? then Stuck
        else Eval(if m.holds(o.v.lit) then yes else no, o.env, m, fuel - 1)
      case If(b, cons, alt) =>
        var o := Eval(b, env, m, fuel - 1);
        if !o.Ok? then o
        else if !o.v.Base? then Stuck
        else Leave(Exec(if m.holds(o.v.lit) then cons else alt, o.env, m, fuel - 1), o.env, m)
      case Match(e', arms) =>
        var o := Eval(e', env, m, fuel - 1);
        if !o.Ok? then o
        else if !o.v.Base? then Stuck
        else EvalArms(o.v.lit, arms, o.env, m, fuel - 1)
      case Assign(l, r) =>
        if l.Name? then Bound(l.name, Eval(r, env, m, fuel - 1))
        else EvalOp("=", [l, r], env, m, fuel - 1)
  }

  function Bound(x: string, o: Outcome): Outcome {
    if o.Ok? then Ok(o.v, [Binding(x, o.v)] + o.env) else o
  }

  function EvalOp(op: string, es: seq<Expr>, env: Env, m: Machine, fuel: nat): Outcome
    decreases fuel
  {
    if fuel == 0 then OutOfFuel
    else
      var r := EvalAll(es, env, m, fuel - 1);
      if r.Abrupt? then r.o else Applied(op, r.vs, r.env, m)
  }

  function EvalAll(es: seq<Expr>, env: Env, m: Machine, fuel: nat): Many
    decreases fuel
  {
    if es == [] then Vals([], env)
    else if fuel == 0 then Abrupt(OutOfFuel)
    else
      var o := Eval(es[0], env, m, fuel - 1);
      if !o.Ok? then Abrupt(o)
      else
        var r := EvalAll(es[1..], o.env, m, fuel - 1);
        if r.Abrupt? then r else Vals([o.v] + r.vs, r.env)
  }

  function EvalCall(f: Expr, args: seq<Expr>, env: Env, m: Machine, fuel: nat): Outcome
    decreases fuel
  {
    if fuel == 0 then OutOfFuel
    else
      var o := Eval(f, env, m, fuel - 1);
      if o.Ok? then Called(o.v, EvalAll(args, o.env, m, fuel - 1), m, fuel - 1) else o
  }

  function Called(f: Value, args: Many, m: Machine, fuel: nat): Outcome
    decreases fuel, 1
  {
    if args.Abrupt? then args.o
    else
      var back := Invoke(f, args.vs, m, fuel);
      if back.Ok? then Ok(back.v, args.env) else back
  }

  /** A call runs the body with the captured bindings, its parameters and its results, to the end or to a
      return; it gives the value returned, or else what the first result then is. */
  function Invoke(f: Value, vs: seq<Value>, m: Machine, fuel: nat): Outcome
    decreases fuel, 0
  {
    if fuel == 0 then OutOfFuel
    else if !f.Closure? then Stuck
    else Given(f.fn, Exec(f.fn.body, Frame(f, vs), m, fuel - 1))
  }

  function Given(fn: Fn, o: Outcome): Outcome {
    if o.Returned? && o.result.Some? then Ok(o.result.value, [])
    else if !o.Ok? && !o.Returned? then o
    else if fn.results != [] && Binds(o.env, fn.results[0]) then Ok(ValueIn(o.env, fn.results[0]), [])
    else Ok(Unit, [])
  }

  function Frame(f: Value, vs: seq<Value>): Env
    requires f.Closure?
  {
    BindAll(f.fn.params, vs, BindAll(f.fn.results, [], f.env))
  }

  function EvalArms(l: Literal, arms: seq<Arm>, env: Env, m: Machine, fuel: nat): Outcome
    decreases fuel
  {
    if arms == [] then Ok(Unit, env)
    else if fuel == 0 then OutOfFuel
    else
      var r := EvalAll(arms[0].heads, env, m, fuel - 1);
      if r.Abrupt? then r.o
      else
        var lits := LitsOf(r.vs);
        if lits.None? then Stuck
        else if m.selects(l, lits.value) then
          Leave(Exec(arms[0].body, BindAll(arms[0].binds, Bases(m.items(l)), r.env), m, fuel - 1), r.env, m)
        else EvalArms(l, arms[1..], r.env, m, fuel - 1)
  }

  function Exec(ss: seq<Stmt>, env: Env, m: Machine, fuel: nat): Outcome
    decreases fuel, 0
  {
    if ss == [] then Ok(Unit, env)
    else if fuel == 0 then OutOfFuel
    else
      var o := Step(ss[0], env, m, fuel - 1);
      if o.Ok? then Exec(ss[1..], o.env, m, fuel - 1) else o
  }

  function Step(s: Stmt, env: Env, m: Machine, fuel: nat): Outcome
    decreases fuel
  {
    if fuel == 0 then OutOfFuel
    else
      match s
      case Do(e) => Eval(e, env, m, fuel - 1)
      case Let(x, e) => Bound(x, Eval(e, env, m, fuel - 1))
      case Multi(xs, e) =>
        var o := Eval(e, env, m, fuel - 1);
        if !o.Ok? then o
        else if !o.v.Base? then Stuck
        else Ok(Unit, BindAll(xs, Bases(m.items(o.v.lit)), o.env))
      case Unwrap(x, e) => Bound(x, Eval(e, env, m, fuel - 1))
      case Function(fn) => Ok(Unit, [Binding(fn.name, Closure(fn, env))] + env)
      case Block(body) => Leave(Exec(body, env, m, fuel - 1), env, m)
      case For(init, cond, update, iter, body) =>
        var o := Exec(init, env, m, fuel - 1);
        if !o.Ok? then o
        else if iter.None? then Leave(Loop(cond, update, body, o.env, m, fuel - 1), env, m)
        else
          var source := Eval(iter.value.source, o.env, m, fuel - 1);
          if !source.Ok? then source
          else if !source.v.Base? then Stuck
          else Leave(Each(iter.value.variable, m.items(source.v.lit), body, source.env, m, fuel - 1), env, m)
      case Return(e) =>
        if e.None? then Returned(None, env)
        else
          var o := Eval(e.value, env, m, fuel - 1);
          if o.Ok? then Returned(Some(o.v), o.env) else o
  }

  function Loop(cond: Option<Expr>, update: seq<Stmt>, body: seq<Stmt>, env: Env, m: Machine, fuel: nat): Outcome
    decreases fuel, 0
  {
    if fuel == 0 then OutOfFuel
    else
      var o := if cond.Some? then Eval(cond.value, env, m, fuel - 1) else Ok(Base(""), env);
      if !o.Ok? then o
      else if !o.v.Base? then Stuck
      else if cond.Some? && !m.holds(o.v.lit) then Ok(Unit, o.env)
      else Round(cond, update, body, o.env, m, fuel - 1)
  }

  /** One round of a loop, and those after it. */
  function Round(cond: Option<Expr>, update: seq<Stmt>, body: seq<Stmt>, env: Env, m: Machine, fuel: nat): Outcome
    decreases fuel, 1
  {
    var once := Leave(Exec(body, env, m, fuel), env, m);
    if !once.Ok? then once
    else
      var next := Exec(update, once.env, m, fuel);
      if next.Ok? then Loop(cond, update, body, next.env, m, fuel) else next
  }

  function Each(x: string, items: seq<Literal>, body: seq<Stmt>, env: Env, m: Machine, fuel: nat): Outcome
    decreases fuel
  {
    if items == [] then Ok(Unit, env)
    else if fuel == 0 then OutOfFuel
    else
      var once := Leave(Exec(body, [Binding(x, Base(items[0]))] + env, m, fuel - 1), env, m);
      if once.Ok? then Each(x, items[1..], body, once.env, m, fuel - 1) else once
  }

  /** What a caller sees of a run: a literal, or that there is none. */
  datatype Answer = Answer(lit: Literal) | NoLiteral | Fails | RunsOn

  function Seen(o: Outcome): Answer {
    match o
    case Ok(v, _) => if v.Base? then Answer(v.lit) else NoLiteral
    case OutOfFuel => RunsOn
    case _ => Fails
  }

  /** What a call of a function of the module gives. */
  function Run(name: string, args: seq<Literal>, m: Machine, fuel: nat): Answer
    requires name in m.functions
  {
    Seen(Invoke(Closure(m.functions[name], []), Bases(args), m, fuel))
  }

  /** What a variable is after the statements of the top level. */
  function RunTop(p: seq<Stmt>, x: string, m: Machine, fuel: nat): Answer {
    var o := Exec(p, [], m, fuel);
    if !o.Ok? then Seen(o) else if Binds(o.env, x) then Seen(Ok(ValueIn(o.env, x), [])) else Fails
  }
}

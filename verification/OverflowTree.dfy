/** The program tree that both overflow analyses of the checker walk, and the integer kind of an operand. */
module OverflowTree {
  import opened Wrappers

  /** One parser node. Go keeps expressions and statements apart by type; a nil child is `Missing`
      and a nil block is an empty list. Every statement has an identity, since the relevant set is
      keyed by node. */
  datatype Node =
    | Missing
    | IntegerLiteral
    | FloatLiteral
    | TextLiteral // a string, char, boolean or regex literal
    | Identifier(name: string, dot: bool) // dot: the bare `.`, parsed as the identifier self
    | Prefix(op: string, right: Node)
    | Infix(op: string, left: Node, right: Node, col: nat)
    | Grouped(inner: Node)
    | Call(callee: Node, args: seq<Node>, target: Option<string>) // target: what lowering resolves recv.m to
    | If(cond: Node, cons: seq<Node>, alt: seq<Node>)
    | Index(left: Node, index: Node)
    | Dot(receiver: Node, property: string)
    | Assign(left: Node, value: Node)
    | ArrayLiteral(elements: seq<Node>)
    | Match(matched: Node, arms: seq<Node>)
    | Arm(cond: Node, patterns: seq<Node>, body: seq<Node>)
    | OtherExpression
    | Let(id: nat, line: nat, bound: Option<string>, typ: Option<string>, value: Node)
    | Return(id: nat, line: nat, value: Node)
    | ExpressionStatement(id: nat, line: nat, value: Node)
    | MultiAssign(id: nat, line: nat, value: Node)
    | Unwrap(id: nat, line: nat, value: Node)
    | For(id: nat, line: nat, cond: Node, init: Node, update: Node, body: seq<Node>)
    | Block(id: nat, line: nat, body: seq<Node>)
    | Function(id: nat, line: nat, called: string, selfType: string, body: seq<Node>)
    | Annotation(id: nat, line: nat, keys: seq<string>)
    | OtherStatement(id: nat, line: nat)

  predicate IsStatement(n: Node) {
    || n.Let? || n.Return? || n.ExpressionStatement? || n.MultiAssign? || n.Unwrap? || n.For?
    || n.Block? || n.Function? || n.Annotation? || n.OtherStatement?
  }

  function Size(n: Node): (size: nat)
    ensures size > 0
  {
    match n
    case Prefix(_, r) => 1 + Size(r)
    case Infix(_, l, r, _) => 1 + Size(l) + Size(r)
    case Grouped(e) => 1 + Size(e)
    case Call(f, args, _) => 1 + Size(f) + SizeAll(args)
    case If(c, cons, alt) => 1 + Size(c) + SizeAll(cons) + SizeAll(alt)
    case Index(l, i) => 1 + Size(l) + Size(i)
    case Dot(r, _) => 1 + Size(r)
    case Assign(l, v) => 1 + Size(l) + Size(v)
    case ArrayLiteral(es) => 1 + SizeAll(es)
    case Match(m, arms) => 1 + Size(m) + SizeAll(arms)
    case Arm(c, ps, body) => 1 + Size(c) + SizeAll(ps) + SizeAll(body)
    case Let(_, _, _, _, v) => 1 + Size(v)
    case Return(_, _, v) => 1 + Size(v)
    case ExpressionStatement(_, _, v) => 1 + Size(v)
    case MultiAssign(_, _, v) => 1 + Size(v)
    case Unwrap(_, _, v) => 1 + Size(v)
    case For(_, _, c, i, u, body) => 1 + Size(c) + Size(i) + Size(u) + SizeAll(body)
    case Block(_, _, body) => 1 + SizeAll(body)
    case Function(_, _, _, _, body) => 1 + SizeAll(body)
    case _ => 1
  }

  function SizeAll(ns: seq<Node>): nat {
    if ns == [] then 0 else Size(ns[0]) + SizeAll(ns[1..])
  }

  lemma {:induction false} SizeOfConcat(a: seq<Node>, b: seq<Node>)
    ensures SizeAll(a + b) == SizeAll(a) + SizeAll(b)
  {
    if a == [] {
      assert a + b == b;
    } else {
      SizeOfConcat(a[1..], b);
      assert (a + b)[1..] == a[1..] + b;
    }
  }

  lemma SizeOfOne(n: Node)
    ensures SizeAll([n]) == Size(n)
  {
    assert [n][1..] == [];
  }

  lemma SizeOfHead(n: Node, rest: seq<Node>)
    ensures SizeAll([n] + rest) == Size(n) + SizeAll(rest)
  {
    SizeOfConcat([n], rest);
    SizeOfOne(n);
  }

  lemma SizeOfTwo(a: Node, b: Node)
    ensures SizeAll([a, b]) == Size(a) + Size(b)
  {
    assert [a, b] == [a] + [b];
    SizeOfHead(a, [b]);
    SizeOfOne(b);
  }

  /** The nodes that a walk enters from n, in the order in which it enters them. */
  function Kids(n: Node): seq<Node> {
    match n
    case Prefix(_, r) => [r]
    case Infix(_, l, r, _) => [l, r]
    case Call(f, args, _) => [f] + args
    case If(c, cons, alt) => [c] + (cons + alt)
    case Index(l, i) => [l, i]
    case Dot(r, _) => [r]
    case Assign(l, v) => [l, v]
    case ArrayLiteral(es) => es
    case Match(m, arms) => [m] + arms
    case Arm(c, ps, body) => [c] + (ps + body)
    case Let(_, _, _, _, v) => [v]
    case Return(_, _, v) => [v]
    case ExpressionStatement(_, _, v) => [v]
    case MultiAssign(_, _, v) => [v]
    case Unwrap(_, _, v) => [v]
    case For(_, _, c, i, u, body) => [c] + ([i] + ([u] + body))
    case Block(_, _, body) => body
    case Function(_, _, _, _, body) => body
    case _ => []
  }

  lemma KidsAreSmaller(n: Node)
    ensures SizeAll(Kids(n)) < Size(n)
  {
    if IsStatement(n) {
      StatementKidsAreSmaller(n);
    } else if n.Infix? || n.Index? || n.Assign? {
      PairIsSmaller(n);
    } else {
      ExpressionKidsAreSmaller(n);
    }
  }

  lemma ExpressionKidsAreSmaller(n: Node)
    requires !IsStatement(n) && !n.Infix? && !n.Index? && !n.Assign?
    ensures SizeAll(Kids(n)) < Size(n)
  {
    match n
    case Prefix(_, r) => SizeOfOne(r);
    case Dot(r, _) => SizeOfOne(r);
    case Call(f, args, _) => SizeOfHead(f, args);
    case Match(m, arms) => SizeOfHead(m, arms);
    case If(_, _, _) => IfKidsAreSmaller(n);
    case Arm(_, _, _) => ArmKidsAreSmaller(n);
    case _ =>
  }

  lemma PairIsSmaller(n: Node)
    requires n.Infix? || n.Index? || n.Assign?
    ensures SizeAll(Kids(n)) < Size(n)
  {
    match n
    case Infix(_, l, r, _) => SizeOfTwo(l, r);
    case Index(l, i) => SizeOfTwo(l, i);
    case Assign(l, v) => SizeOfTwo(l, v);
  }

  lemma StatementKidsAreSmaller(n: Node)
    requires IsStatement(n)
    ensures SizeAll(Kids(n)) < Size(n)
  {
    if n.For? {
      ForKidsAreSmaller(n);
    } else if n.Let? || n.Return? || n.ExpressionStatement? || n.MultiAssign? || n.Unwrap? {
      assert Kids(n) == [n.value] && Size(n) == 1 + Size(n.value);
      SizeOfOne(n.value);
    }
  }

  lemma IfKidsAreSmaller(n: Node)
    requires n.If?
    ensures SizeAll(Kids(n)) < Size(n)
  {
    SizeOfHead(n.cond, n.cons + n.alt);
    SizeOfConcat(n.cons, n.alt);
  }

  lemma ArmKidsAreSmaller(n: Node)
    requires n.Arm?
    ensures SizeAll(Kids(n)) < Size(n)
  {
    SizeOfHead(n.cond, n.patterns + n.body);
    SizeOfConcat(n.patterns, n.body);
  }

  lemma ForKidsAreSmaller(n: Node)
    requires n.For?
    ensures SizeAll(Kids(n)) < Size(n)
  {
    SizeOfHead(n.cond, [n.init] + ([n.update] + n.body));
    SizeOfHead(n.init, [n.update] + n.body);
    SizeOfHead(n.update, n.body);
  }

  /** The field of n that a walk enters, form by form: kid is the node of one, or is in the list of one. A group and a
      leaf are not entered. */
  predicate IsChild(n: Node, kid: Node) {
    match n
    case Prefix(_, right) => kid == right
    case Infix(_, left, right, _) => kid == left || kid == right
    case Call(callee, args, _) => kid == callee || kid in args
    case If(cond, cons, alt) => kid == cond || kid in cons || kid in alt
    case Index(left, index) => kid == left || kid == index
    case Dot(receiver, _) => kid == receiver
    case Assign(left, value) => kid == left || kid == value
    case ArrayLiteral(elements) => kid in elements
    case Match(matched, arms) => kid == matched || kid in arms
    case Arm(cond, patterns, body) => kid == cond || kid in patterns || kid in body
    case Let(_, _, _, _, value) => kid == value
    case Return(_, _, value) => kid == value
    case ExpressionStatement(_, _, value) => kid == value
    case MultiAssign(_, _, value) => kid == value
    case Unwrap(_, _, value) => kid == value
    case For(_, _, cond, init, update, body) => kid == cond || kid == init || kid == update || kid in body
    case Block(_, _, body) => kid in body
    case Function(_, _, _, _, body) => kid in body
    case _ => false
  }

  /** The kids of a node are exactly the nodes of its fields. */
  lemma KidsIffChild(n: Node, kid: Node)
    ensures kid in Kids(n) <==> IsChild(n, kid)
  {
  }

  lemma {:induction false} SizeOfElement(ns: seq<Node>, i: nat)
    requires i < |ns|
    ensures Size(ns[i]) <= SizeAll(ns)
  {
    if i > 0 {
      SizeOfElement(ns[1..], i - 1);
    }
  }

  lemma {:induction false} SizeOfKid(n: Node, kid: Node)
    requires kid in Kids(n)
    ensures Size(kid) < Size(n)
  {
    KidsAreSmaller(n);
    var i :| 0 <= i < |Kids(n)| && Kids(n)[i] == kid;
    SizeOfElement(Kids(n), i);
  }

  // ---------------------------------------------------------------------------------------
  // Integer kinds

  /** The declared types of the variables in scope. */
  type Table = map<string, string>

  /** What is known of an operand. The source writes these as "", "unsigned" and "signed". */
  datatype Kind = NotInteger | Unsigned | Signed

  function Rank(k: Kind): nat {
    match k
    case NotInteger => 0
    case Unsigned => 1
    case Signed => 2
  }

  const SIGNED_TYPES := {"int", "i8", "i16", "i32", "i64", "i128"}
  const UNSIGNED_TYPES := {"u8", "u16", "u32", "u64", "u128"}
  const OTHER_TYPES :=
    {"float", "number.float", "float.float", "f32", "f64", "str", "txt", "char", "bool", "byte", "rune"}

  function NameKind(name: string, types: Table): Kind {
    if name !in types || types[name] in SIGNED_TYPES then Signed
    else if types[name] in UNSIGNED_TYPES then Unsigned
    else if types[name] in OTHER_TYPES then NotInteger
    else Signed
  }

  function OperandKind(e: Node, types: Table): Kind {
    match e
    case IntegerLiteral => Signed
    case FloatLiteral => NotInteger
    case TextLiteral => NotInteger
    case Prefix(op, right) => if op == "-" && right.IntegerLiteral? then Signed else NotInteger
    case Grouped(inner) => OperandKind(inner, types)
    case Infix(_, left, right, _) =>
      if OperandKind(left, types) == NotInteger || OperandKind(right, types) == NotInteger then NotInteger else Signed
    case Identifier(name, _) => NameKind(name, types)
    case _ => Signed
  }

  /** Every operand is at most as much of an integer under `known` as under `fewer`. */
  ghost predicate KindsFallFrom(fewer: Table, known: Table) {
    forall e :: Rank(OperandKind(e, known)) <= Rank(OperandKind(e, fewer))
  }

  /** Every name is at most as much of an integer under `known` as under `fewer`. */
  ghost predicate Below(known: Table, fewer: Table) {
    forall name :: Rank(NameKind(name, known)) <= Rank(NameKind(name, fewer))
  }

  /** A better table never makes an operand more of an integer. */
  lemma {:induction false} KindFalls(e: Node, known: Table, fewer: Table)
    requires Below(known, fewer)
    ensures Rank(OperandKind(e, known)) <= Rank(OperandKind(e, fewer))
  {
    match e
    case Grouped(inner) =>
      KindFalls(inner, known, fewer);
    case Infix(_, left, right, _) =>
      KindFalls(left, known, fewer);
      KindFalls(right, known, fewer);
    case _ =>
  }

  /** The order on tables is exactly the order on the operand kinds they give. */
  lemma BelowIffKindsFall(known: Table, fewer: Table)
    ensures Below(known, fewer) <==> KindsFallFrom(fewer, known)
  {
    if Below(known, fewer) {
      forall e
        ensures Rank(OperandKind(e, known)) <= Rank(OperandKind(e, fewer))
      {
        KindFalls(e, known, fewer);
      }
    }
    if KindsFallFrom(fewer, known) {
      forall name: string
        ensures Rank(NameKind(name, known)) <= Rank(NameKind(name, fewer))
      {
        assert OperandKind(Identifier(name, false), known) == NameKind(name, known);
      }
    }
  }

  /** Adding entries for names that had none only lowers kinds. */
  lemma MoreEntriesAreBelow(known: Table, fewer: Table)
    requires forall name :: name in fewer ==> name in known && known[name] == fewer[name]
    ensures Below(known, fewer)
  {
  }

  // ---------------------------------------------------------------------------------------
  // What makes an operand an integer

  /** The operands that e comes down to, through groups and through both sides of operations. */
  function Leaves(e: Node): set<Node> {
    match e
    case Grouped(inner) => Leaves(inner)
    case Infix(_, left, right, _) => Leaves(left) + Leaves(right)
    case _ => {e}
  }

  /** x is surely no integer: a float or a text, a prefix other than a minus sign before an integer literal, or a name
      that is declared with one of eleven types. */
  predicate IsForeign(x: Node, types: Table) {
    || x.FloatLiteral?
    || x.TextLiteral?
    || (x.Prefix? && !(x.op == "-" && x.right.IntegerLiteral?))
    || (x.Identifier? && x.name in types && NamesForeignType(types[x.name]))
  }

  predicate NamesForeignType(t: string) {
    || t == "float" || t == "number.float" || t == "float.float" || t == "f32" || t == "f64"
    || t == "str" || t == "txt" || t == "char" || t == "bool" || t == "byte" || t == "rune"
  }

  /** Nothing that e comes down to is surely no integer. */
  predicate MayCount(e: Node, types: Table) {
    forall x :: x in Leaves(e) ==> !IsForeign(x, types)
  }

  /** e is a name, perhaps in groups, that is declared with one of the five unsigned types. */
  predicate IsUnsignedName(e: Node, types: Table) {
    if e.Grouped? then IsUnsignedName(e.inner, types)
    else e.Identifier? && e.name in types && NamesUnsignedType(types[e.name])
  }

  predicate NamesUnsignedType(t: string) {
    t == "u8" || t == "u16" || t == "u32" || t == "u64" || t == "u128"
  }

  /** An operand is no integer iff something that it comes down to surely is none, and it is unsigned iff it is a name
      declared so. Everything else counts as signed. */
  lemma {:induction false} KindIff(e: Node, types: Table)
    ensures OperandKind(e, types) == NotInteger <==> !MayCount(e, types)
    ensures OperandKind(e, types) == Unsigned <==> IsUnsignedName(e, types)
  {
    match e
    case Grouped(inner) =>
      KindIff(inner, types);
    case Infix(_, left, right, _) =>
      KindIff(left, types);
      KindIff(right, types);
      assert Leaves(e) == Leaves(left) + Leaves(right);
    case _ =>
      LeafKindIff(e, types);
  }

  lemma LeafKindIff(e: Node, types: Table)
    requires !e.Grouped? && !e.Infix?
    ensures OperandKind(e, types) == NotInteger <==> !MayCount(e, types)
    ensures OperandKind(e, types) == Unsigned <==> IsUnsignedName(e, types)
  {
    assert e in Leaves(e);
    if e.Identifier? && e.name in types {
      TypeKindIff(e.name, types);
    }
  }

  lemma TypeKindIff(name: string, types: Table)
    requires name in types
    ensures NameKind(name, types) == NotInteger <==> NamesForeignType(types[name])
    ensures NameKind(name, types) == Unsigned <==> NamesUnsignedType(types[name])
  {
  }

  // ---------------------------------------------------------------------------------------
  // Lowering of method calls

  /** The lowered tree: a resolved call recv.m(args) has become T.m(recv, args). */
  function Flat(n: Node): Node {
    match n
    case Prefix(op, r) => Prefix(op, Flat(r))
    case Infix(op, l, r, col) => Infix(op, Flat(l), Flat(r), col)
    case Grouped(e) => Grouped(Flat(e))
    case Call(f, args, target) =>
      if f.Dot? && target.Some?
      then Call(Identifier(target.value, false), [Flat(f.receiver)] + FlatAll(args), None)
      else Call(Flat(f), FlatAll(args), target)
    case If(c, cons, alt) => If(Flat(c), FlatAll(cons), FlatAll(alt))
    case Index(l, i) => Index(Flat(l), Flat(i))
    case Dot(r, p) => Dot(Flat(r), p)
    case Assign(l, v) => Assign(Flat(l), Flat(v))
    case ArrayLiteral(es) => ArrayLiteral(FlatAll(es))
    case Match(m, arms) => Match(Flat(m), FlatAll(arms))
    case Arm(c, ps, body) => Arm(Flat(c), FlatAll(ps), FlatAll(body))
    case Let(id, line, b, t, v) => Let(id, line, b, t, Flat(v))
    case Return(id, line, v) => Return(id, line, Flat(v))
    case ExpressionStatement(id, line, v) => ExpressionStatement(id, line, Flat(v))
    case MultiAssign(id, line, v) => MultiAssign(id, line, Flat(v))
    case Unwrap(id, line, v) => Unwrap(id, line, Flat(v))
    case For(id, line, c, i, u, body) => For(id, line, Flat(c), Flat(i), Flat(u), FlatAll(body))
    case Block(id, line, body) => Block(id, line, FlatAll(body))
    case Function(id, line, name, self, body) => Function(id, line, name, self, FlatAll(body))
    case _ => n
  }

  function FlatAll(ns: seq<Node>): seq<Node> {
    if ns == [] then [] else [Flat(ns[0])] + FlatAll(ns[1..])
  }

  predicate IsMethodCall(n: Node) {
    n.Call? && n.callee.Dot? && n.target.Some?
  }

  lemma {:induction false} FlatOfConcat(a: seq<Node>, b: seq<Node>)
    ensures FlatAll(a + b) == FlatAll(a) + FlatAll(b)
  {
    if a == [] {
      assert a + b == b;
    } else {
      FlatOfConcat(a[1..], b);
      assert (a + b)[1..] == a[1..] + b;
    }
  }

  lemma FlatOfHead(a: Node, rest: seq<Node>)
    ensures FlatAll([a] + rest) == [Flat(a)] + FlatAll(rest)
  {
    FlatOfConcat([a], rest);
    assert [a][1..] == [] && FlatAll([a]) == [Flat(a)];
  }

  lemma FlatOfOne(a: Node)
    ensures FlatAll([a]) == [Flat(a)]
  {
    assert [a][1..] == [];
  }

  lemma FlatOfTwo(a: Node, b: Node)
    ensures FlatAll([a, b]) == [Flat(a), Flat(b)]
  {
    assert [a, b] == [a] + [b];
    FlatOfHead(a, [b]);
    FlatOfOne(b);
  }

  /** Lowering leaves the shape of every node but a method call. */
  lemma FlatKids(n: Node)
    requires !IsMethodCall(n)
    ensures Kids(Flat(n)) == FlatAll(Kids(n))
  {
    if IsStatement(n) {
      FlatStatementKids(n);
    } else if n.Infix? || n.Index? || n.Assign? {
      FlatPair(n);
    } else {
      FlatExpressionKids(n);
    }
  }

  lemma FlatPair(n: Node)
    requires n.Infix? || n.Index? || n.Assign?
    ensures Kids(Flat(n)) == FlatAll(Kids(n))
  {
    match n
    case Infix(_, l, r, _) => FlatOfTwo(l, r);
    case Index(l, i) => FlatOfTwo(l, i);
    case Assign(l, v) => FlatOfTwo(l, v);
  }

  lemma FlatExpressionKids(n: Node)
    requires !IsStatement(n) && !n.Infix? && !n.Index? && !n.Assign? && !IsMethodCall(n)
    ensures Kids(Flat(n)) == FlatAll(Kids(n))
  {
    match n
    case Prefix(_, r) => FlatOfOne(r);
    case Dot(r, _) => FlatOfOne(r);
    case Call(f, args, _) => FlatOfHead(f, args);
    case If(c, cons, alt) =>
      FlatOfHead(c, cons + alt);
      FlatOfConcat(cons, alt);
    case Match(m, arms) => FlatOfHead(m, arms);
    case Arm(c, ps, body) =>
      FlatOfHead(c, ps + body);
      FlatOfConcat(ps, body);
    case _ =>
  }

  lemma FlatStatementKids(n: Node)
    requires IsStatement(n)
    ensures Kids(Flat(n)) == FlatAll(Kids(n))
  {
    if n.For? {
      FlatForKids(n);
    } else if n.Let? || n.Return? || n.ExpressionStatement? || n.MultiAssign? || n.Unwrap? {
      FlatValueKids(n);
    }
  }

  lemma FlatValueKids(n: Node)
    requires n.Let? || n.Return? || n.ExpressionStatement? || n.MultiAssign? || n.Unwrap?
    ensures Kids(Flat(n)) == FlatAll(Kids(n))
  {
    FlatOfOne(n.value);
  }

  lemma FlatForKids(n: Node)
    requires n.For?
    ensures Kids(Flat(n)) == FlatAll(Kids(n))
  {
    FlatOfHead(n.cond, [n.init] + ([n.update] + n.body));
    FlatOfHead(n.init, [n.update] + n.body);
    FlatOfHead(n.update, n.body);
  }

  /** A lowered operand has the kind it had. */
  lemma {:induction false} FlatKind(e: Node, types: Table)
    ensures OperandKind(Flat(e), types) == OperandKind(e, types)
  {
    if e.Grouped? {
      FlatKind(e.inner, types);
    } else if e.Infix? {
      FlatKind(e.left, types);
      FlatKind(e.right, types);
    } else if e.Prefix? {
      assert Flat(e.right).IntegerLiteral? == e.right.IntegerLiteral?;
    } else {
      FlatLeafKind(e, types);
    }
  }

  lemma FlatLeafKind(e: Node, types: Table)
    requires !e.Grouped? && !e.Infix? && !e.Prefix?
    ensures OperandKind(Flat(e), types) == OperandKind(e, types)
  {
  }
}

/** The analysis that decides which overflow annotations a formatter may delete, and what it owes the lint. */
module OverflowRelevance {
  import opened OverflowTree
  import opened OverflowLint

  /** The tables of the analysis: the declared types of each function of the unlowered tree, and the type that the
      checker infers for an expression, the empty one if it knows none. Inference is an input here. */
  datatype Scope = Scope(types: nat -> Table, infer: (Node, Table, string) -> string)

  /** The types whose operations give an option. This list holds `byte`, which the operand kinds do not count as an
      integer, and leaves out `u128`, which they do. */
  const OVERFLOWING_TYPES := {"i8", "i16", "i32", "i64", "i128", "u8", "u16", "u32", "u64", "byte", "int"}

  predicate MayBeInteger(e: Node, types: Table, self: string, infer: (Node, Table, string) -> string) {
    match e
    case TextLiteral => false
    case Grouped(inner) => MayBeInteger(inner, types, self, infer)
    case Infix(_, left, right, _) =>
      && MayBeInteger(left, types, self, infer) && MayBeInteger(right, types, self, infer)
      && (infer(e, types, self) == "" || infer(e, types, self) in OVERFLOWING_TYPES)
    case _ => infer(e, types, self) == "" || infer(e, types, self) in OVERFLOWING_TYPES
  }

  /** The checker's own test of an operation. */
  predicate DirectOverflow(v: Node, types: Table, self: string, infer: (Node, Table, string) -> string) {
    match v
    case Grouped(inner) => DirectOverflow(inner, types, self, infer)
    case Infix(op, left, right, _) =>
      && op in ARITHMETIC
      && MayBeInteger(left, types, self, infer) && MayBeInteger(right, types, self, infer)
      && (op == "/" ==> OperandKind(left, types) == Signed || OperandKind(right, types) == Signed)
      && infer(left, types, self) != "i128" && infer(right, types, self) != "i128"
    case _ => false
  }

  const ARITHMETIC_AND_REMAINDER := {"+", "-", "*", "/", "%"}

  /** The bare `.` counts as a signed integer, whatever the receiver is. */
  function ConservativeKind(e: Node, types: Table): Kind {
    if e.Identifier? && e.name == "self" && e.dot then Signed else OperandKind(e, types)
  }

  predicate FlaggedByLint(op: string, left: Node, right: Node, types: Table) {
    var l, r := ConservativeKind(left, types), ConservativeKind(right, types);
    op in ARITHMETIC_AND_REMAINDER && l != NotInteger && r != NotInteger && (op == "/" ==> l == Signed || r == Signed)
  }

  predicate Flagged(n: Node, e: Scope, types: Table, self: string) {
    n.Infix? && (DirectOverflow(n, types, self, e.infer) || FlaggedByLint(n.op, n.left, n.right, types))
  }

  function TypesBelow(n: Node, e: Scope, types: Table): Table {
    if n.Function? then e.types(n.id) else types
  }

  function SelfBelow(n: Node, self: string): string {
    if n.Function? then n.selfType else self
  }

  /** There is flagged arithmetic at or below n. */
  predicate Has(n: Node, e: Scope, types: Table, self: string)
    decreases Size(n), 0
  {
    KidsAreSmaller(n);
    Flagged(n, e, types, self) || HasAny(Kids(n), e, TypesBelow(n, e, types), SelfBelow(n, self))
  }

  predicate HasAny(ns: seq<Node>, e: Scope, types: Table, self: string)
    decreases SizeAll(ns), 1
  {
    ns != [] && (Has(ns[0], e, types, self) || HasAny(ns[1..], e, types, self))
  }

  /** The statements at or below n that have flagged arithmetic at or below them. */
  function Marks(n: Node, e: Scope, types: Table, self: string): set<nat>
    decreases Size(n), 0
  {
    KidsAreSmaller(n);
    (if IsStatement(n) && Has(n, e, types, self) then {n.id} else {})
      + MarksAll(Kids(n), e, TypesBelow(n, e, types), SelfBelow(n, self))
  }

  function MarksAll(ns: seq<Node>, e: Scope, types: Table, self: string): set<nat>
    decreases SizeAll(ns), 1
  {
    if ns == [] then {} else Marks(ns[0], e, types, self) + MarksAll(ns[1..], e, types, self)
  }

  lemma MarksOfHead(n: Node, rest: seq<Node>, e: Scope, types: Table, self: string)
    ensures HasAny([n] + rest, e, types, self) == (Has(n, e, types, self) || HasAny(rest, e, types, self))
    ensures MarksAll([n] + rest, e, types, self) == Marks(n, e, types, self) + MarksAll(rest, e, types, self)
  {
    assert ([n] + rest)[1..] == rest;
  }

  function Relevant(p: seq<Node>, e: Scope, top: Table): set<nat> {
    MarksAll(p, e, top, "")
  }

  // ---------------------------------------------------------------------------------------
  // The traversal

  class Scan {
    const e: Scope
    var relevant: set<nat>

    constructor (e: Scope)
      ensures this.e == e && relevant == {}
    {
      this.e := e;
      relevant := {};
    }

    method Look(n: Node, types: Table, self: string) returns (found: bool)
      modifies this
      ensures found == Has(n, e, types, self)
      ensures relevant == old(relevant) + Marks(n, e, types, self)
      decreases Size(n), 3
    {
      if IsStatement(n) {
        found := LookAtStatement(n, types, self);
      } else {
        found := LookAtExpression(n, types, self);
      }
    }

    /** Looks at every node, also when one has already been found: the walk fills the set as it goes. */
    method LookAll(ns: seq<Node>, types: Table, self: string) returns (found: bool)
      modifies this
      ensures found == HasAny(ns, e, types, self)
      ensures relevant == old(relevant) + MarksAll(ns, e, types, self)
      decreases SizeAll(ns), 4
    {
      found := false;
      for i := 0 to |ns|
        invariant found || HasAny(ns[i..], e, types, self) <==> HasAny(ns, e, types, self)
        invariant relevant + MarksAll(ns[i..], e, types, self) == old(relevant) + MarksAll(ns, e, types, self)
      {
        SizeOfElement(ns, i);
        assert ns[i..][1..] == ns[i + 1..];
        var here := Look(ns[i], types, self);
        if here {
          found := true;
        }
      }
    }

    method Enter(ghost n: Node, kids: seq<Node>, types: Table, self: string, ghost outerTypes: Table,
                 ghost outerSelf: string)
      returns (found: bool)
      requires kids == Kids(n) && types == TypesBelow(n, e, outerTypes) && self == SelfBelow(n, outerSelf)
      modifies this
      ensures found == HasAny(Kids(n), e, types, self)
      ensures relevant == old(relevant) + MarksAll(Kids(n), e, types, self)
      decreases Size(n), 0
    {
      KidsAreSmaller(n);
      found := LookAll(kids, types, self);
    }

    method EnterExpression(ghost n: Node, kids: seq<Node>, types: Table, self: string) returns (found: bool)
      requires kids == Kids(n) && !n.Infix? && !IsStatement(n)
      modifies this
      ensures found == Has(n, e, types, self)
      ensures relevant == old(relevant) + Marks(n, e, types, self)
      decreases Size(n), 1
    {
      found := Enter(n, kids, types, self, types, self);
    }

    method LookAtInfix(n: Node, types: Table, self: string) returns (found: bool)
      requires n.Infix?
      modifies this
      ensures found == Has(n, e, types, self)
      ensures relevant == old(relevant) + Marks(n, e, types, self)
      decreases Size(n), 1
    {
      found := DirectOverflow(n, types, self, e.infer) || FlaggedByLint(n.op, n.left, n.right, types);
      var below := Enter(n, [n.left, n.right], types, self, types, self);
      found := found || below;
    }

    method LookAtExpression(n: Node, types: Table, self: string) returns (found: bool)
      requires !IsStatement(n)
      modifies this
      ensures found == Has(n, e, types, self)
      ensures relevant == old(relevant) + Marks(n, e, types, self)
      decreases Size(n), 2
    {
      found := false;
      match n
      case Infix(_, _, _, _) => found := LookAtInfix(n, types, self);
      case Prefix(_, right) => found := EnterExpression(n, [right], types, self);
      case Call(callee, args, _) => found := EnterExpression(n, [callee] + args, types, self);
      case If(cond, cons, alt) => found := EnterExpression(n, [cond] + (cons + alt), types, self);
      case Index(left, index) => found := EnterExpression(n, [left, index], types, self);
      case Dot(receiver, _) => found := EnterExpression(n, [receiver], types, self);
      case Assign(left, value) => found := EnterExpression(n, [left, value], types, self);
      case ArrayLiteral(elements) => found := EnterExpression(n, elements, types, self);
      case Match(matched, arms) => found := EnterExpression(n, [matched] + arms, types, self);
      case Arm(cond, patterns, body) => found := EnterExpression(n, [cond] + (patterns + body), types, self);
      case _ =>
    }

    method LookAtStatement(n: Node, types: Table, self: string) returns (found: bool)
      requires IsStatement(n)
      modifies this
      ensures found == Has(n, e, types, self)
      ensures relevant == old(relevant) + Marks(n, e, types, self)
      decreases Size(n), 2
    {
      found := LookInside(n, types, self);
      if found {
        relevant := relevant + {n.id};
      }
    }

    method LookInside(n: Node, types: Table, self: string) returns (found: bool)
      requires IsStatement(n)
      modifies this
      ensures found == HasAny(Kids(n), e, TypesBelow(n, e, types), SelfBelow(n, self))
      ensures relevant == old(relevant) + MarksAll(Kids(n), e, TypesBelow(n, e, types), SelfBelow(n, self))
      decreases Size(n), 1
    {
      found := false;
      match n
      case Function(id, _, _, selfType, body) => found := Enter(n, body, e.types(id), selfType, types, self);
      case For(_, _, cond, init, update, body) =>
        found := Enter(n, [cond] + ([init] + ([update] + body)), types, self, types, self);
      case Block(_, _, body) => found := Enter(n, body, types, self, types, self);
      case Let(_, _, _, _, value) => found := Enter(n, [value], types, self, types, self);
      case Return(_, _, value) => found := Enter(n, [value], types, self, types, self);
      case ExpressionStatement(_, _, value) => found := Enter(n, [value], types, self, types, self);
      case MultiAssign(_, _, value) => found := Enter(n, [value], types, self, types, self);
      case Unwrap(_, _, value) => found := Enter(n, [value], types, self, types, self);
      case _ =>
    }
  }

  /** The relevant set of a program: the statements with flagged arithmetic at or below them. */
  method StatementsWithIntOverflow(p: seq<Node>, e: Scope, top: Table) returns (relevant: set<nat>)
    ensures relevant == Relevant(p, e, top)
    ensures forall id: nat :: id in relevant <==> exists n :: n in p && MarkedBelow(Spot(n, top, ""), e, id)
  {
    var scan := new Scan(e);
    var found := scan.LookAll(p, top, "");
    relevant := scan.relevant;
    forall id: nat
      ensures id in relevant <==> exists n :: n in p && MarkedBelow(Spot(n, top, ""), e, id)
    {
      RelevantIffAbove(p, e, top, id);
    }
  }

  // ---------------------------------------------------------------------------------------
  // The set is exactly what lies above flagged arithmetic

  /** A node with the tables in scope there. */
  datatype Spot = Spot(node: Node, types: Table, self: string)

  /** One step down: the tables change where a function is entered. */
  predicate Child(a: Spot, b: Spot, e: Scope) {
    && IsChild(a.node, b.node)
    && match a.node
       case Function(id, _, _, selfType, _) => b.types == e.types(id) && b.self == selfType
       case _ => b.types == a.types && b.self == a.self
  }

  lemma ChildIff(a: Spot, b: Spot, e: Scope)
    ensures Child(a, b, e) <==>
            b.node in Kids(a.node) && b.types == TypesBelow(a.node, e, a.types) && b.self == SelfBelow(a.node, a.self)
  {
    KidsIffChild(a.node, b.node);
  }

  predicate IsBareDot(x: Node) {
    x == Identifier("self", true)
  }

  /** The operands that e comes down to, and the operations between them; groups are left out. */
  function Parts(e: Node): set<Node> {
    match e
    case Grouped(inner) => Parts(inner)
    case Infix(_, left, right, _) => {e} + Parts(left) + Parts(right)
    case _ => {e}
  }

  /** No type, or one of eleven. */
  predicate MayOverflow(t: string) {
    || t == "" || t == "int" || t == "byte" || t == "i8" || t == "i16" || t == "i32" || t == "i64" || t == "i128"
    || t == "u8" || t == "u16" || t == "u32" || t == "u64"
  }

  /** Nothing in xs is a text, or has an inferred type that cannot overflow. */
  predicate AllMayOverflow(xs: set<Node>, e: Scope, types: Table, self: string) {
    forall x :: x in xs ==> !x.TextLiteral? && MayOverflow(e.infer(x, types, self))
  }

  /** The checker itself asks for an annotation of this operation: both sides may be integers by their inferred types,
      neither is an i128, and a division has a side that is not unsigned. */
  predicate AskedFor(s: Spot, e: Scope)
    requires s.node.Infix?
  {
    var left, right := s.node.left, s.node.right;
    && (s.node.op == "+" || s.node.op == "-" || s.node.op == "*" || s.node.op == "/")
    && AllMayOverflow(Parts(left), e, s.types, s.self) && AllMayOverflow(Parts(right), e, s.types, s.self)
    && e.infer(left, s.types, s.self) != "i128" && e.infer(right, s.types, s.self) != "i128"
    && (s.node.op == "/" ==>
          || (MayCount(left, s.types) && !IsUnsignedName(left, s.types))
          || (MayCount(right, s.types) && !IsUnsignedName(right, s.types)))
  }

  /** The lint may ask for one: as it does, but for remainders too, and with the bare `.` a signed integer. */
  predicate Hintable(s: Spot)
    requires s.node.Infix?
  {
    var left, right := s.node.left, s.node.right;
    && (s.node.op == "+" || s.node.op == "-" || s.node.op == "*" || s.node.op == "/" || s.node.op == "%")
    && (IsBareDot(left) || MayCount(left, s.types)) && (IsBareDot(right) || MayCount(right, s.types))
    && (s.node.op == "/" ==>
          IsBareDot(left) || IsBareDot(right) || !IsUnsignedName(left, s.types) || !IsUnsignedName(right, s.types))
  }

  /** path leads down the tree from its first spot to its last. */
  ghost predicate Descends(path: seq<Spot>, e: Scope) {
    path != [] && forall i :: 0 < i < |path| ==> Child(path[i - 1], path[i], e)
  }

  ghost predicate LeadsTo(path: seq<Spot>, s: Spot, end: Spot, e: Scope) {
    Descends(path, e) && path[0] == s && path[|path| - 1] == end
  }

  ghost predicate Reaches(s: Spot, end: Spot, e: Scope) {
    exists path :: LeadsTo(path, s, end, e)
  }

  predicate FlaggedAt(s: Spot, e: Scope) {
    s.node.Infix? && (AskedFor(s, e) || Hintable(s))
  }

  lemma MayOverflowIff(t: string)
    ensures MayOverflow(t) <==> t == "" || t in OVERFLOWING_TYPES
  {
  }

  /** An operand may be an integer for the checker iff everything in it may overflow. */
  lemma {:induction false} MayBeIntegerIff(n: Node, e: Scope, types: Table, self: string)
    ensures MayBeInteger(n, types, self, e.infer) <==> AllMayOverflow(Parts(n), e, types, self)
  {
    if n.Grouped? {
      MayBeIntegerIff(n.inner, e, types, self);
    } else {
      MayOverflowIff(e.infer(n, types, self));
      AllOfOne(n, e, types, self);
      if n.Infix? {
        MayBeIntegerIff(n.left, e, types, self);
        MayBeIntegerIff(n.right, e, types, self);
        AllOfUnion({n}, Parts(n.left), e, types, self);
        AllOfUnion({n} + Parts(n.left), Parts(n.right), e, types, self);
      }
    }
  }

  lemma AllOfUnion(xs: set<Node>, ys: set<Node>, e: Scope, types: Table, self: string)
    ensures AllMayOverflow(xs + ys, e, types, self)
       <==> AllMayOverflow(xs, e, types, self) && AllMayOverflow(ys, e, types, self)
  {
  }

  lemma AllOfOne(n: Node, e: Scope, types: Table, self: string)
    ensures AllMayOverflow({n}, e, types, self) <==> !n.TextLiteral? && MayOverflow(e.infer(n, types, self))
  {
  }

  /** An operation is flagged iff one of the two asks for its annotation. */
  lemma FlaggedIff(s: Spot, e: Scope)
    ensures Flagged(s.node, e, s.types, s.self) <==> FlaggedAt(s, e)
  {
    if s.node.Infix? {
      KindIff(s.node.left, s.types);
      KindIff(s.node.right, s.types);
      MayBeIntegerIff(s.node.left, e, s.types, s.self);
      MayBeIntegerIff(s.node.right, e, s.types, s.self);
      HintableIff(s);
    }
  }

  lemma HintableIff(s: Spot)
    requires s.node.Infix?
    ensures FlaggedByLint(s.node.op, s.node.left, s.node.right, s.types) <==> Hintable(s)
  {
    KindIff(s.node.left, s.types);
    KindIff(s.node.right, s.types);
  }

  /** Some flagged arithmetic lies at or below the spot. */
  ghost predicate Above(s: Spot, e: Scope) {
    exists end :: Reaches(s, end, e) && FlaggedAt(end, e)
  }

  /** A statement with this identity lies at or below the spot, and above flagged arithmetic. */
  ghost predicate MarkedBelow(s: Spot, e: Scope, id: nat) {
    exists end :: Reaches(s, end, e) && IsStatementAt(end, id) && Above(end, e)
  }

  predicate IsStatementAt(s: Spot, id: nat) {
    IsStatement(s.node) && s.node.id == id
  }

  function Under(s: Spot, e: Scope, kid: Node): Spot {
    Spot(kid, TypesBelow(s.node, e, s.types), SelfBelow(s.node, s.self))
  }

  lemma ReachesItself(s: Spot, e: Scope)
    ensures Reaches(s, s, e)
  {
    assert LeadsTo([s], s, s, e);
  }

  lemma ReachesThrough(s: Spot, kid: Spot, end: Spot, e: Scope)
    requires Child(s, kid, e) && Reaches(kid, end, e)
    ensures Reaches(s, end, e)
  {
    var path :| LeadsTo(path, kid, end, e);
    assert LeadsTo([s] + path, s, end, e);
  }

  /** Every way that does not end at once begins with a child. */
  lemma FirstStep(s: Spot, end: Spot, e: Scope) returns (kid: Spot)
    requires Reaches(s, end, e) && s != end
    ensures Child(s, kid, e) && Reaches(kid, end, e)
  {
    var path :| LeadsTo(path, s, end, e);
    kid := path[1];
    var rest := path[1..];
    forall i | 0 < i < |rest|
      ensures Child(rest[i - 1], rest[i], e)
    {
      assert rest[i - 1] == path[i] && rest[i] == path[i + 1];
    }
    assert LeadsTo(rest, kid, end, e);
  }

  ghost predicate SomeHas(ns: seq<Node>, e: Scope, types: Table, self: string) {
    exists n :: n in ns && Has(n, e, types, self)
  }

  ghost predicate SomeMarks(ns: seq<Node>, e: Scope, types: Table, self: string, id: nat) {
    exists n :: n in ns && id in Marks(n, e, types, self)
  }

  lemma {:induction false} HasAnyIff(ns: seq<Node>, e: Scope, types: Table, self: string)
    ensures HasAny(ns, e, types, self) <==> SomeHas(ns, e, types, self)
  {
    if ns != [] {
      HasAnyIff(ns[1..], e, types, self);
      assert forall n :: n in ns <==> n == ns[0] || n in ns[1..];
    }
  }

  lemma {:induction false} MarksAllIff(ns: seq<Node>, e: Scope, types: Table, self: string, id: nat)
    ensures id in MarksAll(ns, e, types, self) <==> SomeMarks(ns, e, types, self, id)
  {
    if ns != [] {
      MarksAllIff(ns[1..], e, types, self, id);
      assert forall n :: n in ns <==> n == ns[0] || n in ns[1..];
    }
  }

  lemma {:induction false} HasIsAbove(s: Spot, e: Scope)
    requires Has(s.node, e, s.types, s.self)
    ensures Above(s, e)
    decreases Size(s.node)
  {
    FlaggedIff(s, e);
    if FlaggedAt(s, e) {
      ReachesItself(s, e);
    } else {
      HasAnyIff(Kids(s.node), e, TypesBelow(s.node, e, s.types), SelfBelow(s.node, s.self));
      var kid :| kid in Kids(s.node) && Has(kid, e, TypesBelow(s.node, e, s.types), SelfBelow(s.node, s.self));
      SizeOfKid(s.node, kid);
      HasIsAbove(Under(s, e, kid), e);
      ChildIff(s, Under(s, e, kid), e);
      var end :| Reaches(Under(s, e, kid), end, e) && FlaggedAt(end, e);
      ReachesThrough(s, Under(s, e, kid), end, e);
    }
  }

  lemma {:induction false} AboveHas(s: Spot, end: Spot, e: Scope)
    requires Reaches(s, end, e) && Has(end.node, e, end.types, end.self)
    ensures Has(s.node, e, s.types, s.self)
    decreases Size(s.node)
  {
    if s != end {
      var kid := FirstStep(s, end, e);
      ChildIff(s, kid, e);
      SizeOfKid(s.node, kid.node);
      AboveHas(kid, end, e);
      HasAnyIff(Kids(s.node), e, kid.types, kid.self);
    }
  }

  /** Has finds exactly the flagged arithmetic that some way down the tree leads to. */
  lemma HasIffAbove(s: Spot, e: Scope)
    ensures Has(s.node, e, s.types, s.self) <==> Above(s, e)
  {
    if Has(s.node, e, s.types, s.self) {
      HasIsAbove(s, e);
    }
    if Above(s, e) {
      var end :| Reaches(s, end, e) && FlaggedAt(end, e);
      FlaggedIff(end, e);
      AboveHas(s, end, e);
    }
  }

  lemma {:induction false} MarkedIsBelow(s: Spot, e: Scope, id: nat)
    requires id in Marks(s.node, e, s.types, s.self)
    ensures MarkedBelow(s, e, id)
    decreases Size(s.node)
  {
    HasIffAbove(s, e);
    if IsStatementAt(s, id) && Above(s, e) {
      ReachesItself(s, e);
    } else {
      MarksAllIff(Kids(s.node), e, TypesBelow(s.node, e, s.types), SelfBelow(s.node, s.self), id);
      var kid :| kid in Kids(s.node) && id in Marks(kid, e, TypesBelow(s.node, e, s.types), SelfBelow(s.node, s.self));
      SizeOfKid(s.node, kid);
      MarkedIsBelow(Under(s, e, kid), e, id);
      ChildIff(s, Under(s, e, kid), e);
      var end :| Reaches(Under(s, e, kid), end, e) && IsStatementAt(end, id) && Above(end, e);
      ReachesThrough(s, Under(s, e, kid), end, e);
    }
  }

  lemma {:induction false} BelowIsMarked(s: Spot, end: Spot, e: Scope, id: nat)
    requires Reaches(s, end, e) && IsStatementAt(end, id) && Above(end, e)
    ensures id in Marks(s.node, e, s.types, s.self)
    decreases Size(s.node)
  {
    if s == end {
      HasIffAbove(s, e);
    } else {
      var kid := FirstStep(s, end, e);
      ChildIff(s, kid, e);
      SizeOfKid(s.node, kid.node);
      BelowIsMarked(kid, end, e, id);
      MarksAllIff(Kids(s.node), e, kid.types, kid.self, id);
    }
  }

  /** The relevant set of a program holds exactly the statements with flagged arithmetic at or below them. */
  lemma RelevantIffAbove(p: seq<Node>, e: Scope, top: Table, id: nat)
    ensures id in Relevant(p, e, top) <==> exists n :: n in p && MarkedBelow(Spot(n, top, ""), e, id)
  {
    MarksAllIff(p, e, top, "", id);
    forall n | n in p
      ensures id in Marks(n, e, top, "") <==> MarkedBelow(Spot(n, top, ""), e, id)
    {
      var s := Spot(n, top, "");
      if id in Marks(n, e, top, "") {
        MarkedIsBelow(s, e, id);
      }
      if MarkedBelow(s, e, id) {
        var end :| Reaches(s, end, e) && IsStatementAt(end, id) && Above(end, e);
        BelowIsMarked(s, end, e, id);
      }
    }
  }
}

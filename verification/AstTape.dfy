/** The specification as flat data: five-slot instructions, with their strings in a pool. */
module AstTape {
  import opened Bits
  import opened Sequences
  import opened StringOrder
  import opened AstSpec

  datatype Opcode =
    | OpHdr | OpScalar | OpComments | OpChild | OpKids | OpHelper | OpSig | OpSelfHelper
    | OpFree | OpBetween | OpTrailing | OpClosing | OpImplements | OpAnnots

  datatype Instr = Instr(op: Opcode, a: nat, b: nat, c: nat, d: nat)

  /** The instructions of one kind. */
  datatype Row = Row(name: string, first: nat, num: nat)

  /** strs is the pool without the empty string that the emitted table begins with. */
  datatype Program = Program(strs: seq<string>, tape: seq<Instr>, rows: seq<Row>)

  function PolicyCode(p: Policy): nat {
    match p
    case Always => 0
    case NonEmpty => 1
    case True => 2
    case NonZero => 3
    case Count => 4
  }

  function RenderCode(r: Render): nat {
    match r
    case AsString => 0
    case AsInt => 1
    case AsFloat => 2
    case AsBool => 3
    case AsType => 4
    case AsNodeString => 5
    case AsLabelKind => 6
  }

  function OfCode(o: Of): nat {
    match o
    case OfField => 0
    case OfLen => 1
    case OfType => 2
    case OfNodeString => 3
    case OfLabelKind => 4
    case OfSprintf => 5
    case OfBare => 6
    case OfLocal => 7
  }

  function Flag(b: bool): nat {
    if b then 1 else 0
  }

  /** The string with this id; 0 and ids past the pool give the empty string. */
  function Str(strs: seq<string>, id: nat): string {
    if id == 0 || id > |strs| then "" else strs[id - 1]
  }

  predicate Refers(strs: seq<string>, id: nat, s: string) {
    1 <= id <= |strs| && strs[id - 1] == s
  }

  /** The fields that the CHILD operations read, in order. */
  function ChildFields(ops: seq<Op>): seq<string> {
    if ops == [] then []
    else if ops[0].Child? then [ops[0].field] + ChildFields(ops[1..])
    else ChildFields(ops[1..])
  }

  /** The scalars for which the emitter looks for a child. */
  predicate LooksForChild(sc: Scalar) {
    sc.render == AsType || sc.render == AsNodeString || sc.of == OfLen || sc.of == OfType || sc.of == OfNodeString
  }

  /** ref is the ordinal of a CHILD operation that reads the scalar's field, and 0 when there is none. */
  predicate IsReference(fields: seq<string>, sc: Scalar, ref: nat) {
    if LooksForChild(sc) && Head(sc.src) in fields then ref < |fields| && fields[ref] == Head(sc.src) else ref == 0
  }

  // ---------------------------------------------------------------------------------------
  // What the code of an operation is

  ghost predicate ScalarCoded(strs: seq<string>, t: Instr, sc: Scalar, fields: seq<string>) {
    && t.op == OpScalar
    && t.a == PolicyCode(sc.policy)
    && t.b == Or(RenderCode(sc.render), ShiftLeft(OfCode(sc.of), 8))
    && Refers(strs, t.c, sc.src)
    && exists id, ref :: Refers(strs, id, sc.key) && IsReference(fields, sc, ref) && t.d == Or(id, ShiftLeft(ref, 24))
  }

  ghost predicate ScalarsCoded(strs: seq<string>, code: seq<Instr>, scalars: seq<Scalar>, fields: seq<string>) {
    |code| == |scalars| && forall i :: 0 <= i < |code| ==> ScalarCoded(strs, code[i], scalars[i], fields)
  }

  function Width(op: Op): nat {
    if op.Header? then 1 + |op.scalars| else 1
  }

  ghost predicate FirstCoded(strs: seq<string>, t: Instr, op: Op) {
    match op
    case Header(name, braces, _, nodeOf, absent) =>
      t.op == OpHdr && Refers(strs, t.a, name) && t.b == Flag(braces) && Refers(strs, t.c, nodeOf)
          && Refers(strs, t.d, absent)
    case Child(field, guard) => t.op == OpChild && Refers(strs, t.a, field) && t.b == Flag(guard)
    case Kids(field, skipNil, byAddress) =>
      t.op == OpKids && Refers(strs, t.a, field) && t.b == Flag(skipNil) && t.c == Flag(byAddress)
    case Helper(field, skipNil, helper) =>
      t.op == OpHelper && Refers(strs, t.a, field) && t.b == Flag(skipNil) && Refers(strs, t.c, helper)
    case SelfHelper(helper) => t.op == OpSelfHelper && Refers(strs, t.a, helper)
    case CommentLines => t.op == OpComments
    case Signature => t.op == OpSig
    case Free => t.op == OpFree
    case Between => t.op == OpBetween
    case Trailing => t.op == OpTrailing
    case Closing => t.op == OpClosing
    case Implements => t.op == OpImplements
    case Annotations => t.op == OpAnnots
  }

  ghost predicate OpCoded(strs: seq<string>, code: seq<Instr>, op: Op, fields: seq<string>) {
    && |code| == Width(op)
    && FirstCoded(strs, code[0], op)
    && (op.Header? ==> ScalarsCoded(strs, code[1..], op.scalars, fields))
  }

  /** code is the code of the operations, one after the other. */
  ghost predicate Coded(strs: seq<string>, code: seq<Instr>, ops: seq<Op>, fields: seq<string>)
    decreases |ops|
  {
    if ops == [] then code == []
    else
      && |code| >= Width(ops[0])
      && OpCoded(strs, code[..Width(ops[0])], ops[0], fields)
      && Coded(strs, code[Width(ops[0])..], ops[1..], fields)
  }

  /** A row of the table of kinds cuts its operations out of the tape. */
  ghost predicate RowCoded(p: Program, row: Row, ops: seq<Op>) {
    row.first + row.num <= |p.tape| && Coded(p.strs, p.tape[row.first..row.first + row.num], ops, ChildFields(ops))
  }

  /** The first rows are those of the first kinds. */
  ghost predicate RowsCoded(p: Program, kinds: seq<string>, spec: Spec) {
    |p.rows| <= |kinds| && forall i {:trigger KindCoded(p, p.rows[i], kinds[i], spec)} ::
      0 <= i < |p.rows| ==> KindCoded(p, p.rows[i], kinds[i], spec)
  }

  ghost predicate KindCoded(p: Program, row: Row, kind: string, spec: Spec) {
    row.name == kind && kind in spec && RowCoded(p, row, spec[kind])
  }

  ghost predicate Compiled(p: Program, spec: Spec) {
    |p.rows| == |Sorted(spec.Keys)| && RowsCoded(p, Sorted(spec.Keys), spec)
  }

  // ---------------------------------------------------------------------------------------
  // A longer pool keeps the code

  lemma ScalarKept(strs: seq<string>, more: seq<string>, t: Instr, sc: Scalar, fields: seq<string>)
    requires strs <= more && ScalarCoded(strs, t, sc, fields)
    ensures ScalarCoded(more, t, sc, fields)
  {
    var id, ref :| Refers(strs, id, sc.key) && IsReference(fields, sc, ref) && t.d == Or(id, ShiftLeft(ref, 24));
    assert Refers(more, id, sc.key);
  }

  lemma ScalarsKept(strs: seq<string>, more: seq<string>, code: seq<Instr>, scalars: seq<Scalar>, fields: seq<string>)
    requires strs <= more && ScalarsCoded(strs, code, scalars, fields)
    ensures ScalarsCoded(more, code, scalars, fields)
  {
    forall i | 0 <= i < |code|
      ensures ScalarCoded(more, code[i], scalars[i], fields)
    {
      ScalarKept(strs, more, code[i], scalars[i], fields);
    }
  }

  lemma {:induction false} CodeKept(strs: seq<string>, more: seq<string>, code: seq<Instr>, ops: seq<Op>,
                                    fields: seq<string>)
    requires strs <= more && Coded(strs, code, ops, fields)
    ensures Coded(more, code, ops, fields)
    decreases |ops|
  {
    if ops != [] {
      var w := Width(ops[0]);
      if ops[0].Header? {
        ScalarsKept(strs, more, code[..w][1..], ops[0].scalars, fields);
      }
      CodeKept(strs, more, code[w..], ops[1..], fields);
    }
  }

  lemma {:induction false} CodeAppended(strs: seq<string>, code: seq<Instr>, ops: seq<Op>, last: seq<Instr>, op: Op,
                                        fields: seq<string>)
    requires Coded(strs, code, ops, fields) && OpCoded(strs, last, op, fields)
    ensures Coded(strs, code + last, ops + [op], fields)
    decreases |ops|
  {
    if ops == [] {
      CodeOfHead(strs, last, [], op, [], fields);
      assert code + last == last + [] && ops + [op] == [op] + [];
    } else {
      var w := Width(ops[0]);
      CodeAppended(strs, code[w..], ops[1..], last, op, fields);
      CodeOfHead(strs, code[..w], code[w..] + last, ops[0], ops[1..] + [op], fields);
      TakeAndDrop(code, w);
      Associative(code[..w], code[w..], last);
      HeadAndTail(ops);
      Associative([ops[0]], ops[1..], [op]);
    }
  }

  lemma CodeOfHead(strs: seq<string>, first: seq<Instr>, rest: seq<Instr>, op: Op, ops: seq<Op>, fields: seq<string>)
    requires OpCoded(strs, first, op, fields) && Coded(strs, rest, ops, fields)
    ensures Coded(strs, first + rest, [op] + ops, fields)
  {
    var w := Width(op);
    assert (first + rest)[..w] == first && (first + rest)[w..] == rest;
    assert ([op] + ops)[1..] == ops;
  }

  lemma CodeGrows(strs: seq<string>, more: seq<string>, code: seq<Instr>, ops: seq<Op>, i: nat, last: seq<Instr>,
                  fields: seq<string>)
    requires i < |ops| && strs <= more
    requires Coded(strs, code, ops[..i], fields) && OpCoded(more, last, ops[i], fields)
    ensures Coded(more, code + last, ops[..i + 1], fields)
  {
    CodeKept(strs, more, code, ops[..i], fields);
    CodeAppended(more, code, ops[..i], last, ops[i], fields);
    assert ops[..i + 1] == ops[..i] + [ops[i]];
  }

  lemma WholeKind(strs: seq<string>, code: seq<Instr>, ops: seq<Op>, fields: seq<string>)
    requires Coded(strs, code, ops[..|ops|], fields)
    ensures Coded(strs, code, ops, fields)
  {
    assert ops[..|ops|] == ops;
  }

  lemma HeaderCoded(strs: seq<string>, more: seq<string>, t: Instr, rest: seq<Instr>, op: Op, fields: seq<string>)
    requires op.Header? && strs <= more && FirstCoded(strs, t, op) && ScalarsCoded(more, rest, op.scalars, fields)
    ensures OpCoded(more, [t] + rest, op, fields)
  {
    assert ([t] + rest)[1..] == rest;
  }

  lemma SimpleCoded(strs: seq<string>, code: seq<Instr>, op: Op, fields: seq<string>)
    requires !op.Header? && |code| == 1 && FirstCoded(strs, code[0], op)
    ensures OpCoded(strs, code, op, fields)
  {
  }

  // ---------------------------------------------------------------------------------------
  // The emitter

  ghost predicate AreOrdinals(ordinals: map<string, nat>, fields: seq<string>) {
    && ordinals.Keys == Elements(fields)
    && forall x :: x in ordinals ==> ordinals[x] < |fields| && fields[ordinals[x]] == x
  }

  /** The ordinal of each child field; of equal fields, the last. */
  method ChildOrdinals(ops: seq<Op>) returns (ordinals: map<string, nat>)
    ensures AreOrdinals(ordinals, ChildFields(ops))
  {
    ordinals := map[];
    var n := 0;
    ghost var fields: seq<string> := [];
    for i := 0 to |ops|
      invariant fields + ChildFields(ops[i..]) == ChildFields(ops) && n == |fields|
      invariant AreOrdinals(ordinals, fields)
    {
      assert ops[i..][1..] == ops[i + 1..];
      match ops[i]
      case Child(field, _) =>
        ordinals := ordinals[field := n];
        fields := fields + [field];
        n := n + 1;
      case _ =>
    }
    assert fields + [] == fields;
  }

  method IndexOf(strs: seq<string>, s: string) returns (i: nat)
    requires s in strs
    ensures i < |strs| && strs[i] == s && s !in strs[..i]
  {
    i := 0;
    while strs[i] != s
      invariant i < |strs| && s !in strs[..i] && s in strs[i..]
      decreases |strs| - i
    {
      i := i + 1;
    }
  }

  class Emitter {
    var strs: seq<string>
    var tape: seq<Instr>

    constructor ()
      ensures strs == [] && tape == []
    {
      strs, tape := [], [];
    }

    /** The id of s, which joins the pool if it is new. */
    method Sid(s: string) returns (id: nat)
      modifies this`strs
      ensures old(strs) <= strs && Refers(strs, id, s)
      ensures Distinct(old(strs)) ==> Distinct(strs)
    {
      if s !in strs {
        strs := strs + [s];
      }
      var i := IndexOf(strs, s);
      id := i + 1;
    }

    method EmitScalar(sc: Scalar, ordinals: map<string, nat>, ghost fields: seq<string>) returns (ghost t: Instr)
      requires AreOrdinals(ordinals, fields)
      modifies this
      ensures old(strs) <= strs
      ensures ScalarCoded(strs, t, sc, fields) && tape == old(tape) + [t]
    {
      var ref := 0;
      if sc.render == AsType || sc.render == AsNodeString || sc.of == OfLen || sc.of == OfType
          || sc.of == OfNodeString {
        if Head(sc.src) in ordinals {
          ref := ordinals[Head(sc.src)];
        }
      }
      var src := Sid(sc.src);
      var id := Sid(sc.key);
      var instr := Instr(OpScalar, PolicyCode(sc.policy), Or(RenderCode(sc.render), ShiftLeft(OfCode(sc.of), 8)), src,
                         Or(id, ShiftLeft(ref, 24)));
      tape := tape + [instr];
      t := instr;
      assert IsReference(fields, sc, ref);
    }

    method EmitScalars(scalars: seq<Scalar>, ordinals: map<string, nat>, ghost fields: seq<string>)
      returns (ghost code: seq<Instr>)
      requires AreOrdinals(ordinals, fields)
      modifies this
      ensures old(strs) <= strs
      ensures ScalarsCoded(strs, code, scalars, fields) && tape == old(tape) + code
    {
      code := [];
      for i := 0 to |scalars|
        invariant old(strs) <= strs
        invariant ScalarsCoded(strs, code, scalars[..i], fields) && tape == old(tape) + code
      {
        ghost var was := strs;
        ghost var t := EmitScalar(scalars[i], ordinals, fields);
        ScalarsKept(was, strs, code, scalars[..i], fields);
        code := code + [t];
      }
      assert scalars[..|scalars|] == scalars;
    }

    method EmitOp(op: Op, ordinals: map<string, nat>, ghost fields: seq<string>) returns (ghost code: seq<Instr>)
      requires AreOrdinals(ordinals, fields)
      modifies this
      ensures old(strs) <= strs
      ensures OpCoded(strs, code, op, fields) && tape == old(tape) + code
    {
      if op.Header? {
        ghost var t := EmitName(op);
        ghost var was := strs;
        ghost var rest := EmitScalars(op.scalars, ordinals, fields);
        HeaderCoded(was, strs, t, rest, op, fields);
        Associative(old(tape), [t], rest);
        code := [t] + rest;
      } else {
        code := EmitSimple(op);
        SimpleCoded(strs, code, op, fields);
      }
    }

    method EmitName(op: Op) returns (ghost t: Instr)
      requires op.Header?
      modifies this
      ensures old(strs) <= strs
      ensures FirstCoded(strs, t, op) && tape == old(tape) + [t]
    {
      var name := Sid(op.name);
      var nodeOf := Sid(op.nodeOf);
      var absent := Sid(op.absent);
      var instr := Instr(OpHdr, name, if op.braces then 1 else 0, nodeOf, absent);
      tape := tape + [instr];
      t := instr;
    }

    method EmitSimple(op: Op) returns (ghost code: seq<Instr>)
      requires !op.Header?
      modifies this
      ensures old(strs) <= strs
      ensures |code| == 1 && FirstCoded(strs, code[0], op) && tape == old(tape) + code
    {
      var t := Instr(OpAnnots, 0, 0, 0, 0);
      match op {
        case Child(field, guard) =>
          var id := Sid(field);
          t := Instr(OpChild, id, if guard then 1 else 0, 0, 0);
        case Kids(field, skipNil, byAddress) =>
          var id := Sid(field);
          t := Instr(OpKids, id, if skipNil then 1 else 0, if byAddress then 1 else 0, 0);
        case Helper(field, skipNil, helper) =>
          var id := Sid(field);
          var called := Sid(helper);
          t := Instr(OpHelper, id, if skipNil then 1 else 0, called, 0);
        case SelfHelper(helper) =>
          var id := Sid(helper);
          t := Instr(OpSelfHelper, id, 0, 0, 0);
        case CommentLines => t := t.(op := OpComments);
        case Signature => t := t.(op := OpSig);
        case Free => t := t.(op := OpFree);
        case Between => t := t.(op := OpBetween);
        case Trailing => t := t.(op := OpTrailing);
        case Closing => t := t.(op := OpClosing);
        case Implements => t := t.(op := OpImplements);
        case Annotations =>
      }
      tape := tape + [t];
      code := [t];
    }

    method EmitKind(ops: seq<Op>) returns (ghost code: seq<Instr>)
      modifies this
      ensures old(strs) <= strs
      ensures Coded(strs, code, ops, ChildFields(ops)) && tape == old(tape) + code
    {
      var ordinals := ChildOrdinals(ops);
      ghost var fields := ChildFields(ops);
      code := [];
      for i := 0 to |ops|
        invariant old(strs) <= strs
        invariant Coded(strs, code, ops[..i], fields) && tape == old(tape) + code
      {
        ghost var was := strs;
        ghost var last := EmitOp(ops[i], ordinals, fields);
        CodeGrows(was, strs, code, ops, i, last, fields);
        Associative(old(tape), code, last);
        code := code + last;
      }
      WholeKind(strs, code, ops, fields);
    }
  }

  lemma RowKept(p: Program, q: Program, row: Row, ops: seq<Op>)
    requires RowCoded(p, row, ops) && p.strs <= q.strs && p.tape <= q.tape
    ensures RowCoded(q, row, ops)
  {
    assert q.tape[row.first..row.first + row.num] == p.tape[row.first..row.first + row.num];
    CodeKept(p.strs, q.strs, p.tape[row.first..row.first + row.num], ops, ChildFields(ops));
  }

  lemma NewRow(p: Program, row: Row, code: seq<Instr>, ops: seq<Op>)
    requires row.first + row.num == |p.tape| && p.tape[row.first..] == code
        && Coded(p.strs, code, ops, ChildFields(ops))
    ensures RowCoded(p, row, ops)
  {
    assert p.tape[row.first..row.first + row.num] == code;
  }

  lemma RowsGrow(p: Program, q: Program, kinds: seq<string>, spec: Spec, row: Row)
    requires RowsCoded(p, kinds, spec) && p.strs <= q.strs && p.tape <= q.tape && q.rows == p.rows + [row]
    requires |p.rows| < |kinds| && KindCoded(q, row, kinds[|p.rows|], spec)
    ensures RowsCoded(q, kinds, spec)
  {
    forall i | 0 <= i < |q.rows|
      ensures KindCoded(q, q.rows[i], kinds[i], spec)
    {
      if i < |p.rows| {
        assert KindCoded(p, p.rows[i], kinds[i], spec);
        RowKept(p, q, p.rows[i], spec[kinds[i]]);
      }
    }
  }

  /** The whole table. kinds are the keys of the specification, sorted. */
  method EmitGo(spec: Spec, kinds: seq<string>) returns (p: Program)
    requires kinds == Sorted(spec.Keys)
    ensures Compiled(p, spec)
  {
    var e := new Emitter();
    var rows: seq<Row> := [];
    for i := 0 to |kinds|
      invariant |rows| == i && RowsCoded(Program(e.strs, e.tape, rows), kinds, spec)
    {
      ghost var was := Program(e.strs, e.tape, rows);
      var first := |e.tape|;
      ghost var code := e.EmitKind(spec[kinds[i]]);
      var row := Row(kinds[i], first, |e.tape| - first);
      ghost var now := Program(e.strs, e.tape, rows + [row]);
      NewRow(now, row, code, spec[kinds[i]]);
      RowsGrow(was, now, kinds, spec, row);
      rows := rows + [row];
    }
    p := Program(e.strs, e.tape, rows);
  }
}

/** The interpreter of the tape, and the proof that it prints what the operations mean. */
module AstInterp {
  import opened Wrappers
  import opened Bits
  import opened Sequences
  import opened StringOrder
  import opened AstSpec
  import opened AstPrinted
  import opened AstTape

  function PolicyAt(code: nat): Policy {
    match code
    case 1 => NonEmpty
    case 2 => True
    case 3 => NonZero
    case 4 => Count
    case _ => Always
  }

  function RenderAt(code: nat): Render {
    match code
    case 1 => AsInt
    case 2 => AsFloat
    case 3 => AsBool
    case 4 => AsType
    case 5 => AsNodeString
    case 6 => AsLabelKind
    case _ => AsString
  }

  function OfAt(code: nat): Option<Of> {
    match code
    case 0 => Some(OfField)
    case 1 => Some(OfLen)
    case 2 => Some(OfType)
    case 3 => Some(OfNodeString)
    case 4 => Some(OfLabelKind)
    case 5 => Some(OfSprintf)
    case 6 => Some(OfBare)
    case 7 => Some(OfLocal)
    case _ => None
  }

  /** The scalars whose text depends on the child. */
  predicate UsesChild(sc: Scalar) {
    sc.of == OfType || sc.of == OfNodeString || (sc.of == OfLocal && sc.render == AsNodeString)
  }

  ghost predicate FaithfulOp(op: Op, fields: seq<string>) {
    op.Header? ==> forall sc :: sc in op.scalars ==> FaithfulScalar(sc, fields)
  }

  /** Every scalar that renders a node renders one that a CHILD operation of its kind reads. */
  ghost predicate Faithful(spec: Spec) {
    forall k :: k in spec ==> FaithfulOps(spec[k], ChildFields(spec[k]))
  }

  ghost predicate FaithfulOps(ops: seq<Op>, fields: seq<string>) {
    forall op :: op in ops ==> FaithfulOp(op, fields)
  }

  lemma OpIsFaithful(ops: seq<Op>, fields: seq<string>, k: nat)
    requires FaithfulOps(ops, fields) && k < |ops|
    ensures FaithfulOp(ops[k], fields)
  {
  }

  ghost predicate FaithfulScalar(sc: Scalar, fields: seq<string>) {
    UsesChild(sc) ==> Head(sc.src) in fields
  }

  lemma ScalarIsFaithful(op: Op, fields: seq<string>, m: nat)
    requires FaithfulOp(op, fields) && op.Header? && m < |op.scalars|
    ensures FaithfulScalar(op.scalars[m], fields)
  {
  }

  // ---------------------------------------------------------------------------------------
  // References to children

  function NodesAt(n: Node, fields: seq<string>): seq<Option<Node>> {
    if fields == [] then [] else [AsNode(Field(n, fields[0]))] + NodesAt(n, fields[1..])
  }

  lemma {:induction false} NodesAtIndex(n: Node, fields: seq<string>, i: nat)
    requires i < |fields|
    ensures |NodesAt(n, fields)| == |fields| && NodesAt(n, fields)[i] == AsNode(Field(n, fields[i]))
  {
    if i > 0 {
      NodesAtIndex(n, fields[1..], i - 1);
    } else if |fields| > 1 {
      NodesAtIndex(n, fields[1..], 0);
    }
  }

  lemma {:induction false} NodesAtLength(n: Node, fields: seq<string>)
    ensures |NodesAt(n, fields)| == |fields|
  {
    if fields != [] {
      NodesAtLength(n, fields[1..]);
    }
  }

  function ChildAt(children: seq<Option<Node>>, ref: nat): Option<Node> {
    if ref < |children| then children[ref] else None
  }

  /** What a scalar that looks for a child finds, with the reference that the emitter gave it. */
  ghost predicate FindsItsChild(fields: seq<string>, sc: Scalar) {
    forall n, ref :: IsReference(fields, sc, ref) ==> ChildAt(NodesAt(n, fields), ref) == AsNode(Field(n, Head(sc.src)))
  }

  /** The reference leads to the right node in every tree exactly when some CHILD operation reads the
      scalar's field. Otherwise it is 0, and leads to whatever the first CHILD operation reads, or to nothing. */
  lemma FindsItsChildIff(fields: seq<string>, sc: Scalar)
    requires LooksForChild(sc)
    ensures FindsItsChild(fields, sc) <==> Head(sc.src) in fields
  {
    var path := Head(sc.src);
    if path in fields {
      forall n, ref | IsReference(fields, sc, ref)
        ensures ChildAt(NodesAt(n, fields), ref) == AsNode(Field(n, path))
      {
        NodesAtIndex(n, fields, ref);
      }
    } else {
      var leaf := Node("", [], [], [], None);
      var n := Node("", [(path, NodeRef(leaf))], [], [], None);
      assert Field(n, path) == NodeRef(leaf);
      assert IsReference(fields, sc, 0);
      if fields != [] {
        NodesAtIndex(n, fields, 0);
        assert n.fields[1..] == [];
        assert Field(n, fields[0]) == Absent;
      }
      assert ChildAt(NodesAt(n, fields), 0) == None;
    }
  }

  // ---------------------------------------------------------------------------------------
  // Decoding

  const LOW_8 := Pow2(8) - 1
  const LOW_24 := Pow2(24) - 1

  lemma Masks()
    ensures LOW_8 == 0xFF && LOW_24 == 0xFFFFFF
  {
    assert Pow2(4) == 16;
    assert Pow2(8) == 256;
    assert Pow2(12) == 4096;
    assert Pow2(16) == 65536;
    assert Pow2(20) == 0x100000;
    assert Pow2(24) == 0x1000000;
  }

  /** A label survives the packing exactly when its id is below 2^24. */
  lemma LabelIffPoolIsSmall(id: nat, ref: nat)
    ensures And(Or(id, ShiftLeft(ref, 24)), LOW_24) == id <==> id < Pow2(24)
    ensures id < Pow2(24) ==> ShiftRight(Or(id, ShiftLeft(ref, 24)), 24) == ref
  {
    PackedIffFits(id, ref, 24);
  }

  lemma CodesFit(sc: Scalar)
    ensures RenderCode(sc.render) < Pow2(8)
    ensures PolicyAt(PolicyCode(sc.policy)) == sc.policy
    ensures RenderAt(RenderCode(sc.render)) == sc.render
    ensures OfAt(OfCode(sc.of)) == Some(sc.of)
  {
    Masks();
  }

  lemma OperandDecodes(strs: seq<string>, t: Instr, sc: Scalar, fields: seq<string>)
    requires ScalarCoded(strs, t, sc, fields)
    ensures PolicyAt(t.a) == sc.policy
    ensures RenderAt(And(t.b, LOW_8)) == sc.render
    ensures OfAt(ShiftRight(t.b, 8)) == Some(sc.of)
  {
    CodesFit(sc);
    OperandUnpacks(t.b, RenderCode(sc.render), OfCode(sc.of));
  }

  lemma OperandUnpacks(b: nat, low: nat, high: nat)
    requires low < Pow2(8) && b == Or(low, ShiftLeft(high, 8))
    ensures And(b, LOW_8) == low && ShiftRight(b, 8) == high
  {
    PackedIffFits(low, high, 8);
  }

  lemma LabelDecodes(strs: seq<string>, t: Instr, sc: Scalar, fields: seq<string>)
    requires ScalarCoded(strs, t, sc, fields) && |strs| < Pow2(24)
    ensures Str(strs, And(t.d, LOW_24)) == sc.key
    ensures IsReference(fields, sc, ShiftRight(t.d, 24))
  {
    var id, ref :| Refers(strs, id, sc.key) && IsReference(fields, sc, ref) && t.d == Or(id, ShiftLeft(ref, 24));
    LabelUnpacks(t.d, id, ref);
    assert Str(strs, id) == sc.key;
  }

  lemma LabelUnpacks(d: nat, low: nat, high: nat)
    requires low < Pow2(24) && d == Or(low, ShiftLeft(high, 24))
    ensures And(d, LOW_24) == low && ShiftRight(d, 24) == high
  {
    PackedIffFits(low, high, 24);
  }

  lemma TrueLabel(key: string)
    ensures key + ": true" == key + ": " + "true"
  {
    assert ": " + "true" == ": true";
    Associative(key, ": ", "true");
  }

  /** Through its reference a faithful scalar renders the node that it means. */
  lemma ScalarRenders(n: Node, sc: Scalar, fields: seq<string>, ref: nat, f: Formats)
    requires IsReference(fields, sc, ref) && FaithfulScalar(sc, fields)
    ensures RenderScalar(n, sc.of, sc.render, sc.src, ChildAt(NodesAt(n, fields), ref), f) == ScalarText(n, sc, f)
  {
    if UsesChild(sc) {
      FindsItsChildIff(fields, sc);
    }
  }

  /** What an instruction for a scalar says, unpacked. */
  datatype Packed = Packed(of: Option<Of>, render: Render, src: string, ref: nat)

  function Unpack(strs: seq<string>, t: Instr): Packed {
    Packed(OfAt(ShiftRight(t.b, 8)), RenderAt(And(t.b, LOW_8)), Str(strs, t.c), ShiftRight(t.d, 24))
  }

  lemma Unpacks(strs: seq<string>, t: Instr, sc: Scalar, fields: seq<string>)
    requires ScalarCoded(strs, t, sc, fields) && |strs| < Pow2(24)
    ensures var u := Unpack(strs, t);
      u.of == Some(sc.of) && u.render == sc.render && u.src == sc.src && IsReference(fields, sc, u.ref)
  {
    OperandDecodes(strs, t, sc, fields);
    LabelDecodes(strs, t, sc, fields);
  }

  function TextAt(u: Packed, n: Node, children: seq<Option<Node>>, f: Formats): string {
    if u.of.None? then "" else RenderScalar(n, u.of.value, u.render, u.src, ChildAt(children, u.ref), f)
  }

  lemma TextDecodes(u: Packed, n: Node, sc: Scalar, fields: seq<string>, f: Formats)
    requires u.of == Some(sc.of) && u.render == sc.render && u.src == sc.src && IsReference(fields, sc, u.ref)
    requires FaithfulScalar(sc, fields)
    ensures TextAt(u, n, NodesAt(n, fields), f) == ScalarText(n, sc, f)
  {
    ScalarRenders(n, sc, fields, u.ref, f);
  }

  /** What one scalar gives. */
  function ScalarGives(n: Node, sc: Scalar, f: Formats): seq<string> {
    if Wanted(sc.policy, ScalarText(n, sc, f)) then [Labelled(sc.key, ScalarText(n, sc, f))] else []
  }

  lemma PartsFrom(n: Node, scalars: seq<Scalar>, m: nat, parts: seq<string>, f: Formats)
    requires m < |scalars|
    ensures parts + ScalarGives(n, scalars[m], f) + Parts(n, scalars[m + 1..], f) == parts + Parts(n, scalars[m..], f)
  {
    assert scalars[m..][1..] == scalars[m + 1..];
    Associative(parts, ScalarGives(n, scalars[m], f), Parts(n, scalars[m + 1..], f));
  }

  lemma PartsAtEnd(n: Node, scalars: seq<Scalar>, m: nat, parts: seq<string>, f: Formats)
    requires m == |scalars| && parts + Parts(n, scalars[m..], f) == Parts(n, scalars, f)
    ensures parts == Parts(n, scalars, f) && AreParts(n, scalars, f, parts)
  {
    assert scalars[m..] == [];
    PartsAre(n, scalars, f);
  }

  lemma NextIsNoScalar(strs: seq<string>, code: seq<Instr>, ops: seq<Op>, fields: seq<string>)
    requires Coded(strs, code, ops, fields)
    ensures code == [] <==> ops == []
    ensures code != [] ==> code[0].op != OpScalar
  {
  }

  /** The tape has the code of op at i, and no scalar after it. */
  ghost predicate HasCode(strs: seq<string>, tape: seq<Instr>, i: nat, end: nat, op: Op, fields: seq<string>) {
    && i + Width(op) <= end <= |tape|
    && OpCoded(strs, tape[i..i + Width(op)], op, fields)
    && (i + Width(op) < end ==> tape[i + Width(op)].op != OpScalar)
  }

  /** The code of the next operation, and what follows it. */
  lemma NextOp(strs: seq<string>, tape: seq<Instr>, at: nat, end: nat, ops: seq<Op>, k: nat, fields: seq<string>)
    requires at <= end <= |tape| && k < |ops| && Coded(strs, tape[at..end], ops[k..], fields)
    ensures HasCode(strs, tape, at, end, ops[k], fields)
    ensures Coded(strs, tape[at + Width(ops[k])..end], ops[k + 1..], fields)
  {
    var w := Width(ops[k]);
    assert ops[k..][0] == ops[k] && ops[k..][1..] == ops[k + 1..];
    assert tape[at..end][..w] == tape[at..at + w] && tape[at..end][w..] == tape[at + w..end];
    NextIsNoScalar(strs, tape[at + w..end], ops[k + 1..], fields);
  }

  lemma FirstOf(strs: seq<string>, tape: seq<Instr>, i: nat, end: nat, op: Op, fields: seq<string>)
    requires HasCode(strs, tape, i, end, op, fields)
    ensures i < |tape| && FirstCoded(strs, tape[i], op)
  {
  }

  lemma HeaderDecodes(strs: seq<string>, tape: seq<Instr>, i: nat, end: nat, op: Op, fields: seq<string>)
    requires HasCode(strs, tape, i, end, op, fields) && op.Header?
    ensures Str(strs, tape[i].a) == op.name && (tape[i].b != 0) == op.braces
    ensures Str(strs, tape[i].c) == op.nodeOf && Str(strs, tape[i].d) == op.absent
  {
    assert FirstCoded(strs, tape[i], op);
  }

  lemma ScalarAt(strs: seq<string>, tape: seq<Instr>, i: nat, end: nat, op: Op, fields: seq<string>, m: nat)
    requires HasCode(strs, tape, i, end, op, fields) && op.Header? && m < |op.scalars|
    ensures ScalarCoded(strs, tape[i + 1 + m], op.scalars[m], fields)
  {
    assert tape[i..i + Width(op)][1..][m] == tape[i + 1 + m];
  }

  /** The run of scalars after a header is as long as the header's list. */
  lemma ScalarFollows(strs: seq<string>, tape: seq<Instr>, i: nat, end: nat, op: Op, fields: seq<string>, m: nat)
    requires HasCode(strs, tape, i, end, op, fields) && op.Header? && m <= |op.scalars|
    ensures i + 1 + m < end && tape[i + 1 + m].op == OpScalar <==> m < |op.scalars|
    ensures m < |op.scalars| ==> ScalarCoded(strs, tape[i + 1 + m], op.scalars[m], fields)
  {
    if m < |op.scalars| {
      ScalarAt(strs, tape, i, end, op, fields, m);
    }
  }

  lemma OnlyScalarsInside(strs: seq<string>, tape: seq<Instr>, i: nat, end: nat, op: Op, fields: seq<string>)
    requires HasCode(strs, tape, i, end, op, fields)
    ensures forall j :: i < j < i + Width(op) ==> tape[j].op == OpScalar
  {
    forall j | i < j < i + Width(op)
      ensures tape[j].op == OpScalar
    {
      ScalarAt(strs, tape, i, end, op, fields, j - i - 1);
    }
  }

  /** Before next there are scalars only; from there on, the code of the operations from k on. */
  ghost predicate Aligned(strs: seq<string>, tape: seq<Instr>, i: nat, next: nat, end: nat, ops: seq<Op>, k: nat,
                          fields: seq<string>) {
    && i <= next <= end <= |tape| && k <= |ops|
    && (forall j :: i <= j < next ==> tape[j].op == OpScalar)
    && Coded(strs, tape[next..end], ops[k..], fields)
  }

  lemma AlignedAtScalar(strs: seq<string>, tape: seq<Instr>, i: nat, next: nat, end: nat, ops: seq<Op>, k: nat,
                        fields: seq<string>)
    requires Aligned(strs, tape, i, next, end, ops, k, fields) && i < end && tape[i].op == OpScalar
    ensures Aligned(strs, tape, i + 1, next, end, ops, k, fields)
  {
    NextIsNoScalar(strs, tape[next..end], ops[k..], fields);
  }

  lemma AlignedAtOp(strs: seq<string>, tape: seq<Instr>, i: nat, next: nat, end: nat, ops: seq<Op>, k: nat,
                    fields: seq<string>)
    requires Aligned(strs, tape, i, next, end, ops, k, fields) && i < end && tape[i].op != OpScalar
    ensures i == next && k < |ops| && HasCode(strs, tape, i, end, ops[k], fields)
  {
    NextIsNoScalar(strs, tape[next..end], ops[k..], fields);
    NextOp(strs, tape, i, end, ops, k, fields);
  }

  lemma AlignedAfterOp(strs: seq<string>, tape: seq<Instr>, i: nat, end: nat, ops: seq<Op>, k: nat, fields: seq<string>)
    requires Aligned(strs, tape, i, i, end, ops, k, fields) && k < |ops|
    ensures HasCode(strs, tape, i, end, ops[k], fields)
    ensures Aligned(strs, tape, i + 1, i + Width(ops[k]), end, ops, k + 1, fields)
  {
    NextOp(strs, tape, i, end, ops, k, fields);
    OnlyScalarsInside(strs, tape, i, end, ops[k], fields);
  }

  lemma AlignedOverOp(strs: seq<string>, tape: seq<Instr>, i: nat, next: nat, end: nat, ops: seq<Op>, k: nat,
                      fields: seq<string>)
    requires Aligned(strs, tape, i, next, end, ops, k, fields) && i < end && tape[i].op != OpScalar
    ensures k < |ops| && HasCode(strs, tape, i, end, ops[k], fields)
    ensures Aligned(strs, tape, i + 1, i + Width(ops[k]), end, ops, k + 1, fields)
  {
    AlignedAtOp(strs, tape, i, next, end, ops, k, fields);
    AlignedAfterOp(strs, tape, i, end, ops, k, fields);
  }

  lemma AlignedAtEnd(strs: seq<string>, tape: seq<Instr>, next: nat, end: nat, ops: seq<Op>, k: nat,
                     fields: seq<string>)
    requires Aligned(strs, tape, end, next, end, ops, k, fields)
    ensures ops[k..] == []
  {
    NextIsNoScalar(strs, tape[next..end], ops[k..], fields);
  }

  /** The fields of the CHILD instructions, in order. */
  function FieldsIn(strs: seq<string>, code: seq<Instr>): seq<string> {
    if code == [] then []
    else if code[0].op == OpChild then [Str(strs, code[0].a)] + FieldsIn(strs, code[1..])
    else FieldsIn(strs, code[1..])
  }

  lemma {:induction false} NoFieldsIn(strs: seq<string>, code: seq<Instr>, rest: seq<Instr>)
    requires forall t :: t in code ==> t.op != OpChild
    ensures FieldsIn(strs, code + rest) == FieldsIn(strs, rest)
  {
    if code == [] {
      assert code + rest == rest;
    } else {
      assert (code + rest)[1..] == code[1..] + rest;
      NoFieldsIn(strs, code[1..], rest);
    }
  }

  lemma {:induction false} FieldsAreThose(strs: seq<string>, code: seq<Instr>, ops: seq<Op>, fields: seq<string>)
    requires Coded(strs, code, ops, fields)
    ensures FieldsIn(strs, code) == ChildFields(ops)
    decreases |ops|
  {
    if ops != [] {
      var w := Width(ops[0]);
      FieldsAreThose(strs, code[w..], ops[1..], fields);
      assert code == code[..w] + code[w..];
      if !ops[0].Child? {
        forall t | t in code[..w]
          ensures t.op != OpChild
        {
          var i :| 0 <= i < w && code[..w][i] == t;
          if i > 0 {
            assert code[..w][1..][i - 1] == t;
          }
        }
        NoFieldsIn(strs, code[..w], code[w..]);
      }
    }
  }

  lemma NextField(n: Node, strs: seq<string>, tape: seq<Instr>, i: nat, end: nat, children: seq<Option<Node>>)
    requires i < end <= |tape|
    ensures tape[i].op == OpChild ==>
      children + NodesAt(n, FieldsIn(strs, tape[i..end]))
        == children + [AsNode(Field(n, Str(strs, tape[i].a)))] + NodesAt(n, FieldsIn(strs, tape[i + 1..end]))
    ensures tape[i].op != OpChild ==> FieldsIn(strs, tape[i..end]) == FieldsIn(strs, tape[i + 1..end])
  {
    assert tape[i..end][1..] == tape[i + 1..end];
    var field, rest := Str(strs, tape[i].a), FieldsIn(strs, tape[i + 1..end]);
    assert ([field] + rest)[1..] == rest;
    Associative(children, [AsNode(Field(n, field))], NodesAt(n, rest));
  }

  lemma RowOfKind(p: Program, index: map<string, nat>, spec: Spec, kind: string)
    requires Indexed(p, index, spec) && kind in spec
    ensures RowCoded(p, p.rows[index[kind]], spec[kind])
  {
    assert RowCoded(p, p.rows[index[kind]], spec[kind]);
  }

  lemma NextShown(before: string, n: Node, ops: seq<Op>, k: nat, depth: nat, spec: Spec, f: Formats)
    requires k < |ops|
    ensures before + ShowOps(n, ops[k..], depth, spec, f)
         == before + ShowOp(n, ops[k], depth, spec, f) + ShowOps(n, ops[k + 1..], depth, spec, f)
  {
    assert ops[k..][1..] == ops[k + 1..];
    Associative(before, ShowOp(n, ops[k], depth, spec, f), ShowOps(n, ops[k + 1..], depth, spec, f));
  }

  // ---------------------------------------------------------------------------------------
  // The interpreter

  /** index leads from the name of each kind to a row with the code of its operations. */
  ghost predicate Indexed(p: Program, index: map<string, nat>, spec: Spec) {
    && index.Keys == spec.Keys
    && (forall k :: k in spec ==> index[k] < |p.rows|)
    && forall k {:trigger RowCoded(p, p.rows[index[k]], spec[k])} ::
         k in spec ==> RowCoded(p, p.rows[index[k]], spec[k])
  }

  /** Every name in the index leads to the row of its kind. */
  ghost predicate LeadsToRows(p: Program, index: map<string, nat>, spec: Spec) {
    && (forall k :: k in index ==> k in spec && index[k] < |p.rows|)
    && forall k {:trigger RowCoded(p, p.rows[index[k]], spec[k])} ::
         k in index ==> RowCoded(p, p.rows[index[k]], spec[k])
  }

  lemma OneMoreRow(p: Program, index: map<string, nat>, spec: Spec, i: nat)
    requires Compiled(p, spec) && i < |p.rows| && LeadsToRows(p, index, spec)
    ensures p.rows[i].name == Sorted(spec.Keys)[i]
    ensures LeadsToRows(p, index[p.rows[i].name := i], spec)
  {
    assert KindCoded(p, p.rows[i], Sorted(spec.Keys)[i], spec);
  }

  method IndexKinds(p: Program, ghost spec: Spec) returns (index: map<string, nat>)
    requires Compiled(p, spec)
    ensures Indexed(p, index, spec)
  {
    index := map[];
    ghost var kinds := Sorted(spec.Keys);
    for i := 0 to |p.rows|
      invariant forall j :: 0 <= j < i ==> kinds[j] in index
      invariant LeadsToRows(p, index, spec)
    {
      OneMoreRow(p, index, spec, i);
      index := index[p.rows[i].name := i];
    }
  }

  class State {
    const p: Program
    const index: map<string, nat>
    const f: Formats
    ghost const spec: Spec
    var buf: string

    ghost predicate Loaded() {
      Indexed(p, index, spec) && |p.strs| < Pow2(24) && Faithful(spec)
    }

    constructor (p: Program, index: map<string, nat>, f: Formats, ghost spec: Spec)
      requires Indexed(p, index, spec) && |p.strs| < Pow2(24) && Faithful(spec)
      ensures this.p == p && this.f == f && this.spec == spec && Loaded() && buf == ""
    {
      this.p, this.index, this.f, this.spec := p, index, f, spec;
      buf := "";
    }

    method Put(depth: nat, text: string)
      modifies this
      ensures buf == old(buf) + LineAt(depth, text)
    {
      buf := buf + LineAt(depth, text);
    }

    method Visit(n: Node, depth: nat)
      requires Loaded()
      modifies this
      ensures buf == old(buf) + Show(n, depth, spec, f)
      decreases n, 5
    {
      if n.kind !in index {
        Put(depth, "<unknown *parser." + n.kind + ">");
        return;
      }
      var row := p.rows[index[n.kind]];
      ghost var ops := spec[n.kind];
      RowOfKind(p, index, spec, n.kind);
      var children := ChildrenOf(n, row);
      FieldsAreThose(p.strs, p.tape[row.first..row.first + row.num], ops, ChildFields(ops));
      Run(n, row, depth, children, ops);
    }

    /** The nodes that the CHILD instructions of a kind read, before any of its lines is printed. */
    method ChildrenOf(n: Node, row: Row) returns (children: seq<Option<Node>>)
      requires row.first + row.num <= |p.tape|
      ensures children == NodesAt(n, FieldsIn(p.strs, p.tape[row.first..row.first + row.num]))
    {
      children := [];
      var end := row.first + row.num;
      for i := row.first to end
        invariant children + NodesAt(n, FieldsIn(p.strs, p.tape[i..end]))
            == NodesAt(n, FieldsIn(p.strs, p.tape[row.first..end]))
      {
        NextField(n, p.strs, p.tape, i, end, children);
        if p.tape[i].op == OpChild {
          children := children + [AsNode(Field(n, Str(p.strs, p.tape[i].a)))];
        }
      }
    }

    method Run(n: Node, row: Row, depth: nat, children: seq<Option<Node>>, ghost ops: seq<Op>)
      requires Loaded() && RowCoded(p, row, ops)
      requires FaithfulOps(ops, ChildFields(ops)) && children == NodesAt(n, ChildFields(ops))
      modifies this
      ensures buf == old(buf) + ShowOps(n, ops, depth, spec, f)
      decreases n, 4
    {
      var end := row.first + row.num;
      var i := row.first;
      ghost var fields := ChildFields(ops);
      ghost var k: nat, next: nat := 0, i;
      assert ops[0..] == ops;
      while i < end
        invariant row.first <= i <= end
        invariant Aligned(p.strs, p.tape, i, next, end, ops, k, fields)
        invariant buf + ShowOps(n, ops[k..], depth, spec, f) == old(buf) + ShowOps(n, ops, depth, spec, f)
      {
        next, k := RunOne(n, i, end, depth, children, ops, fields, next, k);
        i := i + 1;
      }
      AlignedAtEnd(p.strs, p.tape, next, end, ops, k, fields);
    }

    /** A scalar has been read with its header. */
    method RunOne(n: Node, i: nat, end: nat, depth: nat, children: seq<Option<Node>>,
                  ghost ops: seq<Op>, ghost fields: seq<string>, ghost next: nat, ghost k: nat)
      returns (ghost afterwards: nat, ghost m: nat)
      requires Loaded() && FaithfulOps(ops, fields) && children == NodesAt(n, fields)
      requires i < end && Aligned(p.strs, p.tape, i, next, end, ops, k, fields)
      modifies this
      ensures Aligned(p.strs, p.tape, i + 1, afterwards, end, ops, m, fields)
      ensures buf + ShowOps(n, ops[m..], depth, spec, f) == old(buf) + ShowOps(n, ops[k..], depth, spec, f)
      decreases n, 3
    {
      if p.tape[i].op == OpScalar {
        AlignedAtScalar(p.strs, p.tape, i, next, end, ops, k, fields);
        afterwards, m := next, k;
      } else {
        AlignedOverOp(p.strs, p.tape, i, next, end, ops, k, fields);
        afterwards, m := RunNext(n, i, end, depth, children, ops, fields, k);
      }
    }

    method RunNext(n: Node, i: nat, end: nat, depth: nat, children: seq<Option<Node>>,
                   ghost ops: seq<Op>, ghost fields: seq<string>, ghost k: nat)
      returns (ghost afterwards: nat, ghost m: nat)
      requires Loaded() && FaithfulOps(ops, fields) && children == NodesAt(n, fields)
      requires k < |ops| && HasCode(p.strs, p.tape, i, end, ops[k], fields)
      modifies this
      ensures afterwards == i + Width(ops[k]) && m == k + 1
      ensures buf + ShowOps(n, ops[m..], depth, spec, f) == old(buf) + ShowOps(n, ops[k..], depth, spec, f)
      decreases n, 2, 2
    {
      afterwards, m := i + Width(ops[k]), k + 1;
      RunOp(n, i, end, depth, children, ops, fields, k);
    }

    method RunOp(n: Node, i: nat, end: nat, depth: nat, children: seq<Option<Node>>,
                 ghost ops: seq<Op>, ghost fields: seq<string>, ghost k: nat)
      requires Loaded() && FaithfulOps(ops, fields) && children == NodesAt(n, fields)
      requires k < |ops| && HasCode(p.strs, p.tape, i, end, ops[k], fields)
      modifies this
      ensures buf + ShowOps(n, ops[k + 1..], depth, spec, f) == old(buf) + ShowOps(n, ops[k..], depth, spec, f)
      decreases n, 2, 1
    {
      NextShown(buf, n, ops, k, depth, spec, f);
      OpIsFaithful(ops, fields, k);
      FirstOf(p.strs, p.tape, i, end, ops[k], fields);
      Step(n, i, end, depth, children, ops[k], fields);
    }

    method Step(n: Node, i: nat, end: nat, depth: nat, children: seq<Option<Node>>, ghost op: Op,
                ghost fields: seq<string>)
      requires Loaded() && children == NodesAt(n, fields)
      requires i < |p.tape| && FirstCoded(p.strs, p.tape[i], op)
      requires op.Header? ==> HasCode(p.strs, p.tape, i, end, op, fields) && FaithfulOp(op, fields)
      modifies this
      ensures buf == old(buf) + ShowOp(n, op, depth, spec, f)
      decreases n, 2, 0
    {
      var t := p.tape[i];
      match t.op
      case OpHdr => PutHeader(n, i, end, depth, children, op, fields);
      case OpComments => PutComments(n, depth + 1);
      case OpSig => VisitSignature(n, depth);
      case OpChild => VisitChild(n, Str(p.strs, t.a), t.b, depth);
      case OpKids =>
        var v := Field(n, Str(p.strs, t.a));
        if v.List? {
          VisitKids(v.elements, t.b != 0, t.c != 0, depth + 1);
        }
      case OpHelper =>
        var v := Field(n, Str(p.strs, t.a));
        if v.List? {
          VisitHelped(v.elements, t.b != 0, Str(p.strs, t.c), depth + 1);
        }
      case OpSelfHelper => VisitSelf(n, Str(p.strs, t.a), depth);
      case OpFree => PutCount(n, "FreeComments", depth + 1);
      case OpBetween => PutCount(n, "BetweenComments", depth + 1);
      case OpTrailing => PutGroup(n, "TrailingComments", depth + 1);
      case OpClosing => PutGroup(n, "ClosingBraceComment", depth + 1);
      case OpImplements => PutImplements(n, depth + 1);
      case _ =>
    }

    method PutHeader(n: Node, i: nat, end: nat, depth: nat, children: seq<Option<Node>>, ghost op: Op,
                     ghost fields: seq<string>)
      requires Loaded() && op.Header? && children == NodesAt(n, fields)
      requires HasCode(p.strs, p.tape, i, end, op, fields) && FaithfulOp(op, fields)
      modifies this
      ensures buf == old(buf) + HeaderText(n, op, depth, f)
      ensures exists line :: IsHeaderLine(n, op, depth, f, line) && buf == old(buf) + line
    {
      HeaderTextIs(n, op, depth, f);
      var t := p.tape[i];
      var name := Str(p.strs, t.a);
      HeaderDecodes(p.strs, p.tape, i, end, op, fields);
      var body := BodyOf(n, i, end, children, op, fields);
      if t.b != 0 {
        Put(depth, name + "{" + body + "}");
      } else {
        Put(depth, name);
      }
    }

    method BodyOf(n: Node, i: nat, end: nat, children: seq<Option<Node>>, ghost op: Op, ghost fields: seq<string>)
      returns (body: string)
      requires Loaded() && op.Header? && children == NodesAt(n, fields)
      requires HasCode(p.strs, p.tape, i, end, op, fields) && FaithfulOp(op, fields)
      ensures body == HeaderBody(n, op, f)
    {
      var nodeOf, absent := Str(p.strs, p.tape[i].c), Str(p.strs, p.tape[i].d);
      HeaderDecodes(p.strs, p.tape, i, end, op, fields);
      var parts := ScalarParts(n, i, end, children, op, fields);
      body := Joined(parts, ", ");
      if nodeOf != "" {
        var v := Field(n, nodeOf);
        if IsNil(v) {
          body := absent;
        } else {
          body := f.nodeString(AsNode(v));
        }
      }
    }

    /** The scalars that follow the header at i. */
    method ScalarParts(n: Node, i: nat, end: nat, children: seq<Option<Node>>, ghost op: Op, ghost fields: seq<string>)
      returns (parts: seq<string>)
      requires Loaded() && op.Header? && children == NodesAt(n, fields)
      requires HasCode(p.strs, p.tape, i, end, op, fields) && FaithfulOp(op, fields)
      ensures parts == Parts(n, op.scalars, f)
      ensures AreParts(n, op.scalars, f, parts)
    {
      parts := [];
      var m := 0;
      ScalarFollows(p.strs, p.tape, i, end, op, fields, 0);
      assert op.scalars[0..] == op.scalars;
      while i + 1 + m < end && p.tape[i + 1 + m].op == OpScalar
        invariant m <= |op.scalars|
        invariant i + 1 + m < end && p.tape[i + 1 + m].op == OpScalar <==> m < |op.scalars|
        invariant m < |op.scalars| ==> ScalarCoded(p.strs, p.tape[i + 1 + m], op.scalars[m], fields)
        invariant parts + Parts(n, op.scalars[m..], f) == Parts(n, op.scalars, f)
        decreases |op.scalars| - m
      {
        ScalarIsFaithful(op, fields, m);
        var part := ScalarPart(n, p.tape[i + 1 + m], children, op.scalars[m], fields);
        PartsFrom(n, op.scalars, m, parts, f);
        parts := parts + part;
        m := m + 1;
        ScalarFollows(p.strs, p.tape, i, end, op, fields, m);
      }
      PartsAtEnd(n, op.scalars, m, parts, f);
    }

    method ScalarPart(n: Node, t: Instr, children: seq<Option<Node>>, ghost sc: Scalar, ghost fields: seq<string>)
      returns (part: seq<string>)
      requires Loaded() && children == NodesAt(n, fields)
      requires ScalarCoded(p.strs, t, sc, fields) && FaithfulScalar(sc, fields)
      ensures part == ScalarGives(n, sc, f)
      ensures IsPartOf(n, sc, f, part)
    {
      ScalarPartIs(n, sc, f);
      OperandDecodes(p.strs, t, sc, fields);
      LabelDecodes(p.strs, t, sc, fields);
      var u := Unpack(p.strs, t);
      Unpacks(p.strs, t, sc, fields);
      TextDecodes(u, n, sc, fields, f);
      var key := Str(p.strs, And(t.d, LOW_24));
      var text := TextAt(u, n, children, f);
      if !Wanted(PolicyAt(t.a), text) {
        part := [];
      } else if key == "" {
        part := [text];
      } else if u.render == AsBool && text == "true" && PolicyAt(t.a) == True {
        TrueLabel(key);
        part := [key + ": true"];
      } else {
        part := [key + ": " + text];
      }
    }

    method PutComments(n: Node, depth: nat)
      modifies this
      ensures buf == old(buf) + CommentText(n, depth)
    {
      if n.doc != [] {
        Put(depth, "Doc: //" + n.doc[0]);
      }
      if n.comment != [] {
        Put(depth, "Comment: //" + n.comment[0]);
      }
    }

    method PutCount(n: Node, field: string, depth: nat)
      modifies this
      ensures buf == old(buf) + CountedGroup(n, field, depth)
    {
      var v := Field(n, field);
      if v.Comments? {
        Put(depth, field + ": " + Decimal(|v.texts|) + " group(s)");
      }
    }

    method PutGroup(n: Node, field: string, depth: nat)
      modifies this
      ensures buf == old(buf) + ListedGroup(n, field, depth)
    {
      var v := Field(n, field);
      if v.Comments? {
        Associative(buf, LineAt(depth, field), GroupText(v.texts, depth + 1));
        Put(depth, field);
        ghost var was := buf;
        for i := 0 to |v.texts|
          invariant buf + GroupText(v.texts[i..], depth + 1) == was + GroupText(v.texts, depth + 1)
        {
          assert v.texts[i..][1..] == v.texts[i + 1..];
          Associative(buf, LineAt(depth + 1, "//" + v.texts[i]), GroupText(v.texts[i + 1..], depth + 1));
          Put(depth + 1, "//" + v.texts[i]);
        }
      }
    }

    method PutImplements(n: Node, depth: nat)
      modifies this
      ensures buf == old(buf) + ImplementsText(n, depth, f)
    {
      var v := Field(n, "Implements");
      if v.List? && |v.elements| > 0 {
        Put(depth, "Implements: " + f.list(v));
      }
    }

    method VisitChild(n: Node, field: string, guard: nat, depth: nat)
      requires Loaded()
      modifies this
      ensures buf == old(buf) + ShowOp(n, Child(field, guard != 0), depth, spec, f)
      decreases n, 0
    {
      var v := Field(n, field);
      if IsNil(v) {
        if guard == 0 {
          Put(depth + 1, "<nil>");
        }
      } else if v.NodeRef? {
        Visit(v.node, depth + 1);
      } else {
        Put(depth + 1, "<nil>");
      }
    }

    method VisitKids(es: seq<Value>, skipNil: bool, byAddress: bool, depth: nat)
      requires Loaded()
      modifies this
      ensures buf == old(buf) + ShowKids(es, skipNil, byAddress, depth, spec, f)
      decreases es, 0
    {
      for i := 0 to |es|
        invariant buf + ShowKids(es[i..], skipNil, byAddress, depth, spec, f)
               == old(buf) + ShowKids(es, skipNil, byAddress, depth, spec, f)
      {
        assert es[i..][1..] == es[i + 1..];
        Associative(buf, ShowKid(es[i], skipNil, byAddress, depth, spec, f),
                    ShowKids(es[i + 1..], skipNil, byAddress, depth, spec, f));
        VisitKid(es[i], skipNil, byAddress, depth);
      }
    }

    method VisitKid(e: Value, skipNil: bool, byAddress: bool, depth: nat)
      requires Loaded()
      modifies this
      ensures buf == old(buf) + ShowKid(e, skipNil, byAddress, depth, spec, f)
      decreases e, 0
    {
      var kid := ElementNode(e, byAddress);
      if kid.Some? {
        Visit(kid.value, depth);
      } else if !skipNil {
        Put(depth, "<nil>");
      }
    }

    method VisitHelped(es: seq<Value>, skipNil: bool, helper: string, depth: nat)
      requires Loaded()
      modifies this
      ensures buf == old(buf) + ShowHelped(es, skipNil, helper, depth, spec, f)
      decreases es, 0
    {
      for i := 0 to |es|
        invariant buf + ShowHelped(es[i..], skipNil, helper, depth, spec, f)
               == old(buf) + ShowHelped(es, skipNil, helper, depth, spec, f)
      {
        assert es[i..][1..] == es[i + 1..];
        Associative(buf, ShowHelp(es[i], skipNil, helper, depth, spec, f),
                    ShowHelped(es[i + 1..], skipNil, helper, depth, spec, f));
        VisitHelp(es[i], skipNil, helper, depth);
      }
    }

    method VisitHelp(e: Value, skipNil: bool, helper: string, depth: nat)
      requires Loaded()
      modifies this
      ensures buf == old(buf) + ShowHelp(e, skipNil, helper, depth, spec, f)
      decreases e, 0
    {
      if IsNil(e) && skipNil {
        return;
      }
      var part := PartOf(e);
      if part.Some? && part.value.helper == helper {
        VisitPieces(part.value.pieces, depth);
      } else {
        Put(depth, "<nil>");
      }
    }

    method VisitPieces(ps: seq<Piece>, depth: nat)
      requires Loaded()
      modifies this
      ensures buf == old(buf) + ShowPieces(ps, depth, spec, f)
      decreases ps, 0
    {
      for i := 0 to |ps|
        invariant buf + ShowPieces(ps[i..], depth, spec, f) == old(buf) + ShowPieces(ps, depth, spec, f)
      {
        assert ps[i..][1..] == ps[i + 1..];
        Associative(buf, ShowPiece(ps[i], depth, spec, f), ShowPieces(ps[i + 1..], depth, spec, f));
        VisitPiece(ps[i], depth);
      }
    }

    method VisitPiece(piece: Piece, depth: nat)
      requires Loaded()
      modifies this
      ensures buf == old(buf) + ShowPiece(piece, depth, spec, f)
      decreases piece, 0
    {
      match piece
      case Line(level, text) => Put(depth + level, text);
      case Sub(level, node) => Visit(node, depth + level);
    }

    method VisitSignature(n: Node, depth: nat)
      requires Loaded()
      modifies this
      ensures buf == old(buf) + ShowOp(n, Signature, depth, spec, f)
      decreases n, 0
    {
      var v := Field(n, "FuncSignature");
      if v.Struct? {
        VisitPieces(v.part.pieces, depth + 1);
      }
    }

    method VisitSelf(n: Node, helper: string, depth: nat)
      requires Loaded()
      modifies this
      ensures buf == old(buf) + ShowOp(n, SelfHelper(helper), depth, spec, f)
      decreases n, 0
    {
      if n.part.Some? && n.part.value.helper == helper {
        VisitPieces(n.part.value.pieces, depth);
      } else {
        Put(depth, "<nil>");
      }
    }
  }

  /** The dump of a tree by the interpreter is what the specification means, for every tree: given fewer
      than 2^24 pooled strings, and scalars that render children. */
  method SpecDump(p: Program, node: Option<Node>, f: Formats, ghost spec: Spec) returns (text: string)
    requires Compiled(p, spec) && |p.strs| < Pow2(24) && Faithful(spec)
    ensures text == Dump(node, spec, f)
    ensures node.Some? && node.value.kind in spec && spec[node.value.kind] != [] && spec[node.value.kind][0].Header?
        ==> BeginsWithHeader(node.value, spec[node.value.kind][0], f, text)
  {
    var index := IndexKinds(p, spec);
    var s := new State(p, index, f, spec);
    if node.Some? {
      s.Visit(node.value, 0);
    } else {
      s.Put(0, "<nil>");
    }
    ghost var shown := if node.Some? then Show(node.value, 0, spec, f) else NilLine(0);
    assert "" + shown == shown;
    text := Trimmed(s.buf);
    if node.Some? && node.value.kind in spec && spec[node.value.kind] != [] && spec[node.value.kind][0].Header? {
      DumpBegins(node.value, spec, f);
    }
  }
}

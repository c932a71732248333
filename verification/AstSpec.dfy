/** The dump specification: for every node kind a list of operations, and the text that it means. */
module AstSpec {
  import opened Wrappers

  // ---------------------------------------------------------------------------------------
  // The nodes that are dumped

  /** What reflection reads from a field. */
  datatype Value =
    | Absent // there is no such field
    | Nil // a nil pointer, interface or slice
    | NodeRef(node: Node)
    | Inner(node: Node) // a struct held by value: only its address is a node
    | List(elements: seq<Value>)
    | Comments(texts: seq<string>)
    | Struct(part: Part)
    | Leaf(text: string)

  /** fields: what fieldOf reads along each path. part: what the helper that knows this node prints. */
  datatype Node = Node(kind: string, fields: seq<(string, Value)>, doc: seq<string>, comment: seq<string>,
                       part: Option<Part>)

  /** A structure that is not dumped by operations, but by the helper of this name. */
  datatype Part = Part(helper: string, pieces: seq<Piece>)

  /** One line of a helper, or a node that it dumps, so many levels further in. */
  datatype Piece = Line(level: nat, text: string) | Sub(level: nat, node: Node)

  function Lookup(fields: seq<(string, Value)>, path: string): (v: Value)
    ensures v != Absent ==> exists i :: 0 <= i < |fields| && fields[i].1 == v
  {
    if fields == [] then Absent
    else if fields[0].0 == path then fields[0].1
    else
      var v := Lookup(fields[1..], path);
      assert v != Absent
          ==> exists i :: 0 <= i < |fields[1..]| && fields[1..][i].1 == v && fields[1..][i] == fields[i + 1];
      v
  }

  function Field(n: Node, path: string): (v: Value)
    ensures v == Absent || v < n
  {
    var v := Lookup(n.fields, path);
    assert v != Absent ==> exists i :: 0 <= i < |n.fields| && n.fields[i].1 == v && n.fields[i] < n;
    v
  }

  predicate IsNil(v: Value) {
    v.Absent? || v.Nil?
  }

  function AsNode(v: Value): (n: Option<Node>)
    ensures n.Some? ==> n.value < v
  {
    if v.NodeRef? then Some(v.node) else None
  }

  /** An element taken by address is a node only if it is a struct. */
  function ElementNode(v: Value, byAddress: bool): (n: Option<Node>)
    ensures n.Some? ==> n.value < v
  {
    if byAddress then (if v.Inner? then Some(v.node) else None) else AsNode(v)
  }

  function PartOf(v: Value): (p: Option<Part>)
    ensures p.Some? ==> p.value < v
  {
    if v.Struct? then Some(v.part) else if v.NodeRef? || v.Inner? then v.node.part else None
  }

  // ---------------------------------------------------------------------------------------
  // The operations

  datatype Policy = Always | NonEmpty | True | NonZero | Count
  datatype Render = AsString | AsInt | AsFloat | AsBool | AsType | AsNodeString | AsLabelKind
  datatype Of = OfField | OfLen | OfType | OfNodeString | OfLabelKind | OfSprintf | OfBare | OfLocal

  datatype Scalar = Scalar(key: string, policy: Policy, render: Render, of: Of, src: string)

  datatype Op =
    | Header(name: string, braces: bool, scalars: seq<Scalar>, nodeOf: string, absent: string)
    | CommentLines
    | Child(field: string, guard: bool)
    | Kids(field: string, skipNil: bool, byAddress: bool)
    | Helper(field: string, skipNil: bool, helper: string)
    | Signature
    | SelfHelper(helper: string)
    | Free | Between | Trailing | Closing | Implements | Annotations

  type Spec = map<string, seq<Op>>

  /** Go's own formatting, which both ways of dumping share. */
  datatype Formats = Formats(
    value: (Value, Render) -> string, // renderValue
    typeString: Node -> string,
    nodeString: Option<Node> -> string,
    labelKind: Value -> string,
    list: Value -> string)

  // ---------------------------------------------------------------------------------------
  // Text

  function Indent(depth: nat): string {
    if depth == 0 then "" else "    " + Indent(depth - 1)
  }

  function LineAt(depth: nat, text: string): string {
    Indent(depth) + text + "\n"
  }

  function Decimal(n: nat): string {
    if n < 10 then ["0123456789"[n]] else Decimal(n / 10) + ["0123456789"[n % 10]]
  }

  function Joined(parts: seq<string>, sep: string): string {
    if parts == [] then "" else if |parts| == 1 then parts[0] else parts[0] + sep + Joined(parts[1..], sep)
  }

  /** The part of a dotted path before its first dot. */
  function Head(path: string): string {
    if path == "" || path[0] == '.' then "" else [path[0]] + Head(path[1..])
  }

  /** The text of a scalar; child is the node that it names, when it renders one. */
  function RenderScalar(n: Node, of: Of, render: Render, src: string, child: Option<Node>, f: Formats): string {
    var v := Field(n, src);
    match of
    case OfLen => if v.List? then Decimal(|v.elements|) else "0"
    case OfType => if child.None? then "" else f.typeString(child.value)
    case OfNodeString => f.nodeString(child)
    case OfLabelKind => if v.Absent? then "none" else f.labelKind(v)
    case OfLocal =>
      if render == AsNodeString then (if child.None? then "" else f.nodeString(child))
      else if v.Absent? then "" else f.value(v, render)
    case _ => if v.Absent? then "" else f.value(v, render)
  }

  predicate Wanted(policy: Policy, text: string) {
    match policy
    case Always => true
    case NonEmpty => text != ""
    case True => text == "true"
    case NonZero => text != "0"
    case Count => text != "0"
  }

  function Labelled(key: string, text: string): string {
    if key == "" then text else key + ": " + text
  }

  // ---------------------------------------------------------------------------------------
  // The meaning of the operations

  /** A scalar that renders a node renders the child that its path begins with. */
  function ScalarText(n: Node, sc: Scalar, f: Formats): string {
    RenderScalar(n, sc.of, sc.render, sc.src, AsNode(Field(n, Head(sc.src))), f)
  }

  function Parts(n: Node, scalars: seq<Scalar>, f: Formats): seq<string> {
    if scalars == [] then []
    else
      var text := ScalarText(n, scalars[0], f);
      (if Wanted(scalars[0].policy, text) then [Labelled(scalars[0].key, text)] else []) + Parts(n, scalars[1..], f)
  }

  function HeaderBody(n: Node, op: Op, f: Formats): string
    requires op.Header?
  {
    if op.nodeOf == "" then Joined(Parts(n, op.scalars, f), ", ")
    else if IsNil(Field(n, op.nodeOf)) then op.absent
    else f.nodeString(AsNode(Field(n, op.nodeOf)))
  }

  function HeaderText(n: Node, op: Op, depth: nat, f: Formats): string
    requires op.Header?
  {
    LineAt(depth, if op.braces then op.name + "{" + HeaderBody(n, op, f) + "}" else op.name)
  }

  function CommentText(n: Node, depth: nat): string {
    (if n.doc != [] then LineAt(depth, "Doc: //" + n.doc[0]) else "")
      + if n.comment != [] then LineAt(depth, "Comment: //" + n.comment[0]) else ""
  }

  function GroupText(texts: seq<string>, depth: nat): string {
    if texts == [] then "" else LineAt(depth, "//" + texts[0]) + GroupText(texts[1..], depth)
  }

  function CountedGroup(n: Node, field: string, depth: nat): string {
    var v := Field(n, field);
    if v.Comments? then LineAt(depth, field + ": " + Decimal(|v.texts|) + " group(s)") else ""
  }

  function ListedGroup(n: Node, field: string, depth: nat): string {
    var v := Field(n, field);
    if v.Comments? then LineAt(depth, field) + GroupText(v.texts, depth + 1) else ""
  }

  function ImplementsText(n: Node, depth: nat, f: Formats): string {
    var v := Field(n, "Implements");
    if v.List? && v.elements != [] then LineAt(depth, "Implements: " + f.list(v)) else ""
  }

  function NilLine(depth: nat): string {
    LineAt(depth, "<nil>")
  }

  /** The dump of a node: what its operations print, one after the other. */
  function Show(n: Node, depth: nat, spec: Spec, f: Formats): string
    decreases n, 3, 0
  {
    if n.kind !in spec then LineAt(depth, "<unknown *parser." + n.kind + ">")
    else ShowOps(n, spec[n.kind], depth, spec, f)
  }

  function ShowOps(n: Node, ops: seq<Op>, depth: nat, spec: Spec, f: Formats): string
    decreases n, 2, |ops|
  {
    if ops == [] then "" else ShowOp(n, ops[0], depth, spec, f) + ShowOps(n, ops[1..], depth, spec, f)
  }

  function ShowOp(n: Node, op: Op, depth: nat, spec: Spec, f: Formats): string
    decreases n, 1, 0
  {
    match op
    case Header(_, _, _, _, _) => HeaderText(n, op, depth, f)
    case CommentLines => CommentText(n, depth + 1)
    case Child(field, guard) =>
      var v := Field(n, field);
      if IsNil(v) then (if guard then "" else NilLine(depth + 1))
      else if v.NodeRef? then Show(v.node, depth + 1, spec, f)
      else NilLine(depth + 1)
    case Kids(field, skipNil, byAddress) =>
      var v := Field(n, field);
      if v.List? then ShowKids(v.elements, skipNil, byAddress, depth + 1, spec, f) else ""
    case Helper(field, skipNil, helper) =>
      var v := Field(n, field);
      if v.List? then ShowHelped(v.elements, skipNil, helper, depth + 1, spec, f) else ""
    case Signature =>
      var v := Field(n, "FuncSignature");
      if v.Struct? then ShowPieces(v.part.pieces, depth + 1, spec, f) else ""
    case SelfHelper(helper) =>
      if n.part.Some? && n.part.value.helper == helper then ShowPieces(n.part.value.pieces, depth, spec, f)
      else NilLine(depth)
    case Free => CountedGroup(n, "FreeComments", depth + 1)
    case Between => CountedGroup(n, "BetweenComments", depth + 1)
    case Trailing => ListedGroup(n, "TrailingComments", depth + 1)
    case Closing => ListedGroup(n, "ClosingBraceComment", depth + 1)
    case Implements => ImplementsText(n, depth + 1, f)
    case Annotations => ""
  }

  function ShowKids(es: seq<Value>, skipNil: bool, byAddress: bool, depth: nat, spec: Spec, f: Formats): string
    decreases es, 0, 0
  {
    if es == [] then ""
    else ShowKid(es[0], skipNil, byAddress, depth, spec, f) + ShowKids(es[1..], skipNil, byAddress, depth, spec, f)
  }

  function ShowKid(e: Value, skipNil: bool, byAddress: bool, depth: nat, spec: Spec, f: Formats): string
    decreases e, 0, 0
  {
    var kid := ElementNode(e, byAddress);
    if kid.Some? then Show(kid.value, depth, spec, f) else if skipNil then "" else NilLine(depth)
  }

  /** A structure that is not the helper's own prints as nil. */
  function ShowHelped(es: seq<Value>, skipNil: bool, helper: string, depth: nat, spec: Spec, f: Formats): string
    decreases es, 0, 0
  {
    if es == [] then ""
    else ShowHelp(es[0], skipNil, helper, depth, spec, f) + ShowHelped(es[1..], skipNil, helper, depth, spec, f)
  }

  function ShowHelp(e: Value, skipNil: bool, helper: string, depth: nat, spec: Spec, f: Formats): string
    decreases e, 0, 0
  {
    var part := PartOf(e);
    if IsNil(e) && skipNil then ""
    else if part.Some? && part.value.helper == helper then ShowPieces(part.value.pieces, depth, spec, f)
    else NilLine(depth)
  }

  function ShowPieces(ps: seq<Piece>, depth: nat, spec: Spec, f: Formats): string
    decreases ps, 0, 0
  {
    if ps == [] then "" else ShowPiece(ps[0], depth, spec, f) + ShowPieces(ps[1..], depth, spec, f)
  }

  function ShowPiece(piece: Piece, depth: nat, spec: Spec, f: Formats): string
    decreases piece, 0, 0
  {
    match piece
    case Line(level, text) => LineAt(depth + level, text)
    case Sub(level, node) => Show(node, depth + level, spec, f)
  }

  /** The dump of a tree, without the newlines at its end. */
  function Dump(n: Option<Node>, spec: Spec, f: Formats): string {
    Trimmed(if n.Some? then Show(n.value, 0, spec, f) else NilLine(0))
  }

  function Trimmed(s: string): string {
    if s != "" && s[|s| - 1] == '\n' then Trimmed(s[..|s| - 1]) else s
  }
}

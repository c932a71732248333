/** What stands in a printed dump, said of the text and not by the functions that build it. */
module AstPrinted {
  import opened Wrappers
  import opened Sequences
  import opened AstSpec

  // ---------------------------------------------------------------------------------------
  // Text

  /** As many spaces as four times the depth. */
  predicate IsPad(pad: string, depth: nat) {
    |pad| == 4 * depth && forall i :: 0 <= i < |pad| ==> pad[i] == ' '
  }

  lemma {:induction false} IndentIsPad(depth: nat)
    ensures IsPad(Indent(depth), depth)
  {
    if depth > 0 {
      IndentIsPad(depth - 1);
    }
  }

  predicate IsDigit(c: char) {
    '0' <= c <= '9'
  }

  /** The number that a string of digits stands for. */
  function NumberOf(s: string): int {
    if s == "" then 0 else 10 * NumberOf(s[..|s| - 1]) + (s[|s| - 1] as int - '0' as int)
  }

  /** text is the number n, without a zero in front. */
  predicate IsNumeral(text: string, n: nat) {
    && text != "" && (forall i :: 0 <= i < |text| ==> IsDigit(text[i]))
    && (|text| > 1 ==> text[0] != '0')
    && NumberOf(text) == n
  }

  lemma DigitIsNumeral(n: nat)
    requires n < 10
    ensures IsNumeral(["0123456789"[n]], n)
  {
    var s := ["0123456789"[n]];
    assert s[..|s| - 1] == "";
    assert s[0] as int == '0' as int + n;
  }

  lemma {:induction false} DecimalIsNumeral(n: nat)
    ensures IsNumeral(Decimal(n), n)
    ensures n > 0 ==> Decimal(n)[0] != '0'
  {
    if n < 10 {
      DigitIsNumeral(n);
    } else {
      DecimalIsNumeral(n / 10);
      DigitIsNumeral(n % 10);
      var front, last := Decimal(n / 10), "0123456789"[n % 10];
      assert Decimal(n) == front + [last];
      assert (front + [last])[..|front|] == front;
    }
  }

  /** Every part, each with the separator after it. */
  function Spread(parts: seq<string>, sep: string): string {
    if parts == [] then "" else parts[0] + sep + Spread(parts[1..], sep)
  }

  /** text is the parts with the separator between them: with one more at its end it is what they spread to. */
  predicate IsJoined(parts: seq<string>, sep: string, text: string) {
    if parts == [] then text == "" else text + sep == Spread(parts, sep)
  }

  lemma {:induction false} JoinedIsJoined(parts: seq<string>, sep: string)
    ensures IsJoined(parts, sep, Joined(parts, sep))
  {
    if |parts| == 1 {
      assert parts[1..] == [];
      assert parts[0] + sep + "" == parts[0] + sep;
    } else if |parts| > 1 {
      JoinedIsJoined(parts[1..], sep);
      Associative(parts[0] + sep, Joined(parts[1..], sep), sep);
    }
  }

  /** head is what comes before the first dot of the path, or the whole path. */
  predicate IsHead(path: string, head: string) {
    head <= path && '.' !in head && (head == path || path[|head|] == '.')
  }

  lemma {:induction false} HeadIsHead(path: string)
    ensures IsHead(path, Head(path))
  {
    if path != "" && path[0] != '.' {
      HeadIsHead(path[1..]);
      assert path == [path[0]] + path[1..];
    }
  }

  predicate AllNewlines(s: string) {
    forall i :: 0 <= i < |s| ==> s[i] == '\n'
  }

  /** Trimming takes the newlines at the end, and nothing else. */
  lemma {:induction false} TrimmedIs(s: string) returns (newlines: string)
    ensures s == Trimmed(s) + newlines && AllNewlines(newlines)
    ensures Trimmed(s) != "" ==> Trimmed(s)[|Trimmed(s)| - 1] != '\n'
  {
    if s != "" && s[|s| - 1] == '\n' {
      var fewer := TrimmedIs(s[..|s| - 1]);
      newlines := fewer + "\n";
      Associative(Trimmed(s), fewer, "\n");
      assert s == s[..|s| - 1] + "\n";
    } else {
      newlines := "";
    }
  }

  // ---------------------------------------------------------------------------------------
  // Fields and nodes

  /** v is the value of the first field with this path, and absent if there is none. */
  predicate IsValueAt(fields: seq<(string, Value)>, path: string, v: Value) {
    || (v == Absent && forall i :: 0 <= i < |fields| ==> fields[i].0 != path)
    || exists i :: 0 <= i < |fields| && fields[i] == (path, v) && forall j :: 0 <= j < i ==> fields[j].0 != path
  }

  lemma {:induction false} LookupIsValue(fields: seq<(string, Value)>, path: string)
    ensures IsValueAt(fields, path, Lookup(fields, path))
  {
    if fields != [] {
      if fields[0].0 == path {
        assert fields[0] == (path, Lookup(fields, path));
      } else {
        var rest := fields[1..];
        LookupIsValue(rest, path);
        assert forall i :: 0 < i < |fields| ==> fields[i] == rest[i - 1];
        if i :| 0 <= i < |rest| && rest[i] == (path, Lookup(fields, path))
                && forall j :: 0 <= j < i ==> rest[j].0 != path
        {
          assert fields[i + 1] == (path, Lookup(fields, path));
        }
      }
    }
  }

  /** The node that a value refers to. */
  predicate IsNodeOf(v: Value, n: Option<Node>) {
    if v.NodeRef? then n == Some(v.node) else n == None
  }

  lemma AsNodeIs(v: Value)
    ensures IsNodeOf(v, AsNode(v))
  {
  }

  // ---------------------------------------------------------------------------------------
  // The header line

  /** text is the text of the scalar: the length of a list, a type or a node of the child that its path begins with, a
      kind of label, or the value at its path. */
  ghost predicate IsTextOf(n: Node, sc: Scalar, f: Formats, text: string) {
    exists v, named, child ::
      && IsValueAt(n.fields, sc.src, v) && IsHead(sc.src, named)
      && ChildNamed(n, named, child)
      && Renders(sc.of, sc.render, v, child, f, text)
  }

  ghost predicate ChildNamed(n: Node, path: string, child: Option<Node>) {
    exists v :: IsValueAt(n.fields, path, v) && IsNodeOf(v, child)
  }

  ghost predicate Renders(of: Of, render: Render, v: Value, child: Option<Node>, f: Formats, text: string) {
    match of
    case OfLen => if v.List? then IsNumeral(text, |v.elements|) else text == "0"
    case OfType => if child == None then text == "" else text == f.typeString(child.value)
    case OfNodeString => text == f.nodeString(child)
    case OfLabelKind => if v == Absent then text == "none" else text == f.labelKind(v)
    case OfLocal =>
      if render == AsNodeString then (if child == None then text == "" else text == f.nodeString(child))
      else if v == Absent then text == "" else text == f.value(v, render)
    case OfField => if v == Absent then text == "" else text == f.value(v, render)
    case OfSprintf => if v == Absent then text == "" else text == f.value(v, render)
    case OfBare => if v == Absent then text == "" else text == f.value(v, render)
  }

  lemma ScalarTextIs(n: Node, sc: Scalar, f: Formats)
    ensures IsTextOf(n, sc, f, ScalarText(n, sc, f))
  {
    LookupIsValue(n.fields, sc.src);
    LookupIsValue(n.fields, Head(sc.src));
    HeadIsHead(sc.src);
    var v, child := Field(n, sc.src), AsNode(Field(n, Head(sc.src)));
    assert ChildNamed(n, Head(sc.src), child);
    RenderedIs(n, sc.of, sc.render, sc.src, child, f);
  }

  lemma RenderedIs(n: Node, of: Of, render: Render, src: string, child: Option<Node>, f: Formats)
    ensures Renders(of, render, Field(n, src), child, f, RenderScalar(n, of, render, src, child, f))
  {
    if Field(n, src).List? {
      DecimalIsNumeral(|Field(n, src).elements|);
    }
  }

  /** A scalar with this text is printed. */
  predicate IsPrinted(policy: Policy, text: string) {
    || policy == Always
    || (policy == NonEmpty && text != "")
    || (policy == True && text == "true")
    || (policy == NonZero && text != "0")
    || (policy == Count && text != "0")
  }

  /** How it is printed: after its key, if it has one. */
  predicate IsEntry(key: string, text: string, entry: string) {
    (key == "" ==> entry == text) && (key != "" ==> entry == key + ": " + text)
  }

  predicate Ascending(indices: seq<nat>) {
    forall a, b :: 0 <= a < b < |indices| ==> indices[a] < indices[b]
  }

  ghost predicate AreTexts(n: Node, scalars: seq<Scalar>, f: Formats, texts: seq<string>) {
    |texts| == |scalars| && forall i :: 0 <= i < |scalars| ==> IsTextOf(n, scalars[i], f, texts[i])
  }

  /** The indices of the printed scalars, in order. */
  ghost predicate AreShown(scalars: seq<Scalar>, texts: seq<string>, shown: seq<nat>)
    requires |texts| == |scalars|
  {
    && Ascending(shown)
    && (forall j :: 0 <= j < |shown| ==> shown[j] < |scalars|)
    && forall i :: 0 <= i < |scalars| ==> (i in shown <==> IsPrinted(scalars[i].policy, texts[i]))
  }

  /** Each entry is that of the scalar shown there. */
  ghost predicate AreEntries(scalars: seq<Scalar>, texts: seq<string>, shown: seq<nat>, entries: seq<string>)
    requires |texts| == |scalars| && AreShown(scalars, texts, shown)
  {
    |entries| == |shown|
    && forall j :: 0 <= j < |shown| ==> IsEntry(scalars[shown[j]].key, texts[shown[j]], entries[j])
  }

  /** entries are those of exactly the scalars that are printed, in the order of the scalars. */
  ghost predicate AreParts(n: Node, scalars: seq<Scalar>, f: Formats, entries: seq<string>) {
    exists texts, shown ::
      AreTexts(n, scalars, f, texts) && AreShown(scalars, texts, shown) && AreEntries(scalars, texts, shown, entries)
  }

  /** body stands between the braces of the header: one node, or what stands for its absence, or the entries of the
      scalars. */
  ghost predicate IsBody(n: Node, op: Op, f: Formats, body: string)
    requires op.Header?
  {
    if op.nodeOf == "" then exists entries :: AreParts(n, op.scalars, f, entries) && IsJoined(entries, ", ", body)
    else exists v, child :: IsValueAt(n.fields, op.nodeOf, v) && IsNodeOf(v, child) && IsNodeBody(op, v, child, f, body)
  }

  predicate IsNodeBody(op: Op, v: Value, child: Option<Node>, f: Formats, body: string)
    requires op.Header?
  {
    body == if v == Absent || v == Nil then op.absent else f.nodeString(child)
  }

  /** line is the header line of the node. */
  ghost predicate IsHeaderLine(n: Node, op: Op, depth: nat, f: Formats, line: string)
    requires op.Header?
  {
    exists pad, body ::
      && IsPad(pad, depth) && IsBody(n, op, f, body)
      && line == pad + (if op.braces then op.name + "{" + body + "}" else op.name) + "\n"
  }

  // ---------------------------------------------------------------------------------------
  // The specification prints exactly that

  function TextsOf(n: Node, scalars: seq<Scalar>, f: Formats): seq<string> {
    seq(|scalars|, i requires 0 <= i < |scalars| => ScalarText(n, scalars[i], f))
  }

  /** The indices, from k on, of the scalars that the specification wants. */
  function ShownFrom(n: Node, scalars: seq<Scalar>, k: nat, f: Formats): (shown: seq<nat>)
    requires k <= |scalars|
    ensures forall j :: 0 <= j < |shown| ==> k <= shown[j] < |scalars|
    ensures Ascending(shown)
    decreases |scalars| - k
  {
    if k == |scalars| then []
    else
      var rest := ShownFrom(n, scalars, k + 1, f);
      if Wanted(scalars[k].policy, ScalarText(n, scalars[k], f)) then [k] + rest else rest
  }

  lemma {:induction false} ShownIff(n: Node, scalars: seq<Scalar>, k: nat, i: nat, f: Formats)
    requires k <= i < |scalars|
    ensures i in ShownFrom(n, scalars, k, f) <==> IsPrinted(scalars[i].policy, ScalarText(n, scalars[i], f))
    decreases |scalars| - k
  {
    if k < i {
      ShownIff(n, scalars, k + 1, i, f);
    } else {
      assert i !in ShownFrom(n, scalars, k + 1, f);
    }
  }

  lemma {:induction false} PartsAreThose(n: Node, scalars: seq<Scalar>, k: nat, f: Formats)
    requires k <= |scalars|
    ensures var shown, parts := ShownFrom(n, scalars, k, f), Parts(n, scalars[k..], f);
            |parts| == |shown| && forall j :: 0 <= j < |shown| ==>
              IsEntry(scalars[shown[j]].key, ScalarText(n, scalars[shown[j]], f), parts[j])
    decreases |scalars| - k
  {
    if k < |scalars| {
      PartsAreThose(n, scalars, k + 1, f);
      assert scalars[k..][1..] == scalars[k + 1..];
    }
  }

  /** The parts of a header are the entries of exactly the scalars whose policy prints them, in order. */
  lemma PartsAre(n: Node, scalars: seq<Scalar>, f: Formats)
    ensures AreParts(n, scalars, f, Parts(n, scalars, f))
  {
    var texts, shown := TextsOf(n, scalars, f), ShownFrom(n, scalars, 0, f);
    forall i | 0 <= i < |scalars|
      ensures IsTextOf(n, scalars[i], f, texts[i])
      ensures i in shown <==> IsPrinted(scalars[i].policy, texts[i])
    {
      ScalarTextIs(n, scalars[i], f);
      ShownIff(n, scalars, 0, i, f);
    }
    assert AreShown(scalars, texts, shown);
    PartsAreThose(n, scalars, 0, f);
    assert scalars[0..] == scalars;
    assert AreEntries(scalars, texts, shown, Parts(n, scalars, f));
  }

  lemma HeaderBodyIs(n: Node, op: Op, f: Formats)
    requires op.Header?
    ensures IsBody(n, op, f, HeaderBody(n, op, f))
  {
    if op.nodeOf == "" {
      PartsAre(n, op.scalars, f);
      JoinedIsJoined(Parts(n, op.scalars, f), ", ");
    } else {
      LookupIsValue(n.fields, op.nodeOf);
      AsNodeIs(Field(n, op.nodeOf));
    }
  }

  /** The header that the specification means is the header line of the node. */
  lemma HeaderTextIs(n: Node, op: Op, depth: nat, f: Formats)
    requires op.Header?
    ensures IsHeaderLine(n, op, depth, f, HeaderText(n, op, depth, f))
  {
    IndentIsPad(depth);
    HeaderBodyIs(n, op, f);
    var pad, body := Indent(depth), HeaderBody(n, op, f);
    assert IsPad(pad, depth) && IsBody(n, op, f, body);
  }

  /** One scalar gives one entry if its policy prints it, and none otherwise. */
  ghost predicate IsPartOf(n: Node, sc: Scalar, f: Formats, part: seq<string>) {
    exists text :: IsTextOf(n, sc, f, text) && IsEntryOf(sc, text, part)
  }

  predicate IsEntryOf(sc: Scalar, text: string, part: seq<string>) {
    if IsPrinted(sc.policy, text) then |part| == 1 && IsEntry(sc.key, text, part[0]) else part == []
  }

  lemma ScalarPartIs(n: Node, sc: Scalar, f: Formats)
    ensures var text := ScalarText(n, sc, f);
            IsPartOf(n, sc, f, if Wanted(sc.policy, text) then [Labelled(sc.key, text)] else [])
  {
    var text := ScalarText(n, sc, f);
    ScalarTextIs(n, sc, f);
    assert IsEntryOf(sc, text, if Wanted(sc.policy, text) then [Labelled(sc.key, text)] else []);
  }

  // ---------------------------------------------------------------------------------------
  // Children, elements and whole dumps

  ghost predicate IsNilLine(depth: nat, text: string) {
    exists pad :: IsPad(pad, depth) && text == pad + "<nil>\n"
  }

  lemma NilLineIs(depth: nat)
    ensures IsNilLine(depth, NilLine(depth))
  {
    IndentIsPad(depth);
    assert IsPad(Indent(depth), depth);
    assert Indent(depth) + "<nil>" + "\n" == Indent(depth) + "<nil>\n";
  }

  /** A child that is there prints as a node, one level in. One that is not prints as nil, and nothing under a guard. */
  lemma ChildIs(n: Node, field: string, guard: bool, depth: nat, spec: Spec, f: Formats)
    ensures exists v :: IsValueAt(n.fields, field, v)
              && var text := ShowOp(n, Child(field, guard), depth, spec, f);
                 if v.NodeRef? then text == Show(v.node, depth + 1, spec, f)
                 else if guard && (v == Absent || v == Nil) then text == ""
                 else IsNilLine(depth + 1, text)
  {
    LookupIsValue(n.fields, field);
    NilLineIs(depth + 1);
  }

  /** An element prints as the node that it refers to, or by address as the struct that it is. Any other is nil. */
  lemma KidIs(e: Value, skipNil: bool, byAddress: bool, depth: nat, spec: Spec, f: Formats)
    ensures var text := ShowKid(e, skipNil, byAddress, depth, spec, f);
            if (e.NodeRef? && !byAddress) || (e.Inner? && byAddress) then text == Show(e.node, depth, spec, f)
            else if skipNil then text == ""
            else IsNilLine(depth, text)
  {
    NilLineIs(depth);
  }

  /** A structure of the helper prints piece by piece, as itself or as the part of a node. Any other is nil. */
  lemma HelpIs(e: Value, skipNil: bool, helper: string, depth: nat, spec: Spec, f: Formats)
    ensures var text := ShowHelp(e, skipNil, helper, depth, spec, f);
            if e.Struct? && e.part.helper == helper then text == ShowPieces(e.part.pieces, depth, spec, f)
            else if (e.NodeRef? || e.Inner?) && e.node.part.Some? && e.node.part.value.helper == helper
            then text == ShowPieces(e.node.part.value.pieces, depth, spec, f)
            else if skipNil && (e == Absent || e == Nil) then text == ""
            else IsNilLine(depth, text)
  {
    NilLineIs(depth);
  }

  /** text, with the newlines that were trimmed, begins with the header line of the root. */
  ghost predicate BeginsWithHeader(n: Node, op: Op, f: Formats, text: string)
    requires op.Header?
  {
    exists line, rest, newlines ::
      IsHeaderLine(n, op, 0, f, line) && AllNewlines(newlines) && text + newlines == line + rest
  }

  lemma ShowOfOps(n: Node, depth: nat, spec: Spec, f: Formats)
    requires n.kind in spec && spec[n.kind] != []
    ensures Show(n, depth, spec, f)
        == ShowOp(n, spec[n.kind][0], depth, spec, f) + ShowOps(n, spec[n.kind][1..], depth, spec, f)
  {
  }

  lemma DumpBegins(n: Node, spec: Spec, f: Formats)
    requires n.kind in spec && spec[n.kind] != [] && spec[n.kind][0].Header?
    ensures BeginsWithHeader(n, spec[n.kind][0], f, Dump(Some(n), spec, f))
  {
    var ops := spec[n.kind];
    var line, rest := HeaderText(n, ops[0], 0, f), ShowOps(n, ops[1..], 0, spec, f);
    HeaderTextIs(n, ops[0], 0, f);
    ShowOfOps(n, 0, spec, f);
    var newlines := TrimmedIs(line + rest);
    assert Dump(Some(n), spec, f) == Trimmed(line + rest);
  }
}

/** Which statement a free-standing overflow annotation speaks for. */
module OverflowGoverned {
  import opened Wrappers
  import opened OverflowTree
  import opened OverflowLint
  import opened OverflowRelevance

  predicate IsOverflowNote(n: Node) {
    n.Annotation? && "overflow" in n.keys
  }

  predicate IsPlain(n: Node) {
    IsStatement(n) && !n.Annotation?
  }

  /** The annotation at i speaks for the statement at j: the next one of the list that is not an
      annotation, with no other overflow annotation between. */
  ghost predicate Governs(list: seq<Node>, i: int, j: int) {
    && 0 <= i < j < |list|
    && list[i].Annotation? && "overflow" in list[i].keys
    && IsStatement(list[j]) && !list[j].Annotation?
    && forall k :: i < k < j ==> !IsStatement(list[k]) || (list[k].Annotation? && "overflow" !in list[k].keys)
  }

  /** The first plain statement from k on, unless an overflow annotation comes first. */
  function NextPlain(list: seq<Node>, k: nat): (r: Option<nat>)
    requires k <= |list|
    ensures r.Some? ==> k <= r.value < |list| && IsPlain(list[r.value])
    ensures r.Some? ==> forall i :: k <= i < r.value ==> !IsPlain(list[i]) && !IsOverflowNote(list[i])
    ensures r.None? ==>
              forall j :: k <= j < |list| && IsPlain(list[j]) ==> exists i :: k <= i < j && IsOverflowNote(list[i])
    decreases |list| - k
  {
    if k == |list| || IsOverflowNote(list[k]) then None
    else if IsPlain(list[k]) then Some(k)
    else NextPlain(list, k + 1)
  }

  lemma NextIffGoverns(list: seq<Node>, i: nat, j: nat)
    requires i < |list| && IsOverflowNote(list[i])
    ensures Governs(list, i, j) <==> NextPlain(list, i + 1) == Some(j)
  {
  }

  /** governed, once the annotations of list from i on are recorded. */
  function Recorded(g: map<nat, nat>, list: seq<Node>, i: nat): map<nat, nat>
    requires i <= |list|
    decreases |list| - i
  {
    if i == |list| then g
    else if IsOverflowNote(list[i]) && NextPlain(list, i + 1).Some?
    then Recorded(g[list[i].id := list[NextPlain(list, i + 1).value].id], list, i + 1)
    else Recorded(g, list, i + 1)
  }

  function RecordedAll(g: map<nat, nat>, lists: seq<seq<Node>>): map<nat, nat>
    decreases |lists|
  {
    if lists == [] then g else RecordedAll(Recorded(g, lists[0], 0), lists[1..])
  }

  lemma {:induction false} RecordedOfConcat(g: map<nat, nat>, a: seq<seq<Node>>, b: seq<seq<Node>>)
    ensures RecordedAll(g, a + b) == RecordedAll(RecordedAll(g, a), b)
    decreases |a|
  {
    if a == [] {
      assert a + b == b;
    } else {
      RecordedOfConcat(Recorded(g, a[0], 0), a[1..], b);
      assert (a + b)[1..] == a[1..] + b;
    }
  }

  // ---------------------------------------------------------------------------------------
  // The lists that are scanned

  /** The statement lists scanned from this one on, in the order of the scan. */
  function Lists(ns: seq<Node>): seq<seq<Node>>
    decreases SizeAll(ns), 3
  {
    [ns] + ListsBelow(ns)
  }

  function ListsBelow(ns: seq<Node>): seq<seq<Node>>
    decreases SizeAll(ns), 2
  {
    if ns == [] then [] else ListsIn(ns[0]) + ListsBelow(ns[1..])
  }

  function ListsIn(n: Node): seq<seq<Node>>
    decreases Size(n), 1
  {
    match n
    case Function(_, _, _, _, body) => Lists(body)
    case Block(_, _, body) => Lists(body)
    case For(_, _, _, _, _, body) => Lists(body)
    case ExpressionStatement(_, _, value) => ArmLists(value)
    case Let(_, _, _, _, value) => ArmLists(value)
    case _ => []
  }

  /** The arms of an if or a match that is a statement, or the value of a let. */
  function ArmLists(e: Node): seq<seq<Node>>
    decreases Size(e), 0
  {
    if e.If? then Lists(e.cons) + Lists(e.alt)
    else if e.Match? then BodyLists(e.arms) + (NestedIn(e.matched) + HeadLists(e.arms))
    else []
  }

  /** The arms of a match that is matched on, or that stands in the head of an arm. */
  function NestedIn(e: Node): seq<seq<Node>>
    decreases Size(e), 1
  {
    if e.Match? then ArmLists(e) else []
  }

  function NestedLists(es: seq<Node>): seq<seq<Node>>
    decreases SizeAll(es), 4
  {
    if es == [] then [] else NestedIn(es[0]) + NestedLists(es[1..])
  }

  function BodyIn(arm: Node): seq<seq<Node>>
    decreases Size(arm), 0
  {
    if arm.Arm? then Lists(arm.body) else []
  }

  function BodyLists(arms: seq<Node>): seq<seq<Node>>
    decreases SizeAll(arms), 4
  {
    if arms == [] then [] else BodyIn(arms[0]) + BodyLists(arms[1..])
  }

  function HeadIn(arm: Node): seq<seq<Node>>
    decreases Size(arm), 0
  {
    if arm.Arm? then NestedIn(arm.cond) + NestedLists(arm.patterns) else []
  }

  function HeadLists(arms: seq<Node>): seq<seq<Node>>
    decreases SizeAll(arms), 4
  {
    if arms == [] then [] else HeadIn(arms[0]) + HeadLists(arms[1..])
  }

  class Collector {
    var governed: map<nat, nat>

    constructor ()
      ensures governed == map[]
    {
      governed := map[];
    }

    method ScanList(list: seq<Node>)
      modifies this
      ensures governed == Recorded(old(governed), list, 0)
    {
      for i := 0 to |list|
        invariant Recorded(governed, list, i) == Recorded(old(governed), list, 0)
      {
        if IsOverflowNote(list[i]) {
          ghost var before, next := governed, NextPlain(list, i + 1);
          var j := i + 1;
          while j < |list|
            invariant i < j <= |list|
            invariant governed == before
            invariant NextPlain(list, j) == next
          {
            if !IsStatement(list[j]) {
              j := j + 1;
              continue;
            }
            if list[j].Annotation? {
              if IsOverflowNote(list[j]) {
                break;
              }
              j := j + 1;
              continue;
            }
            governed := governed[list[i].id := list[j].id];
            break;
          }
        }
      }
    }

    method Collect(list: seq<Node>)
      modifies this
      ensures governed == RecordedAll(old(governed), Lists(list))
      decreases SizeAll(list), 3
    {
      ScanList(list);
      ghost var scanned := governed;
      for i := 0 to |list|
        invariant RecordedAll(governed, ListsBelow(list[i..])) == RecordedAll(scanned, ListsBelow(list))
      {
        SizeOfElement(list, i);
        assert list[i..][1..] == list[i + 1..];
        RecordedOfConcat(governed, ListsIn(list[i]), ListsBelow(list[i + 1..]));
        CollectIn(list[i]);
      }
      assert Lists(list)[1..] == ListsBelow(list);
    }

    method CollectIn(n: Node)
      modifies this
      ensures governed == RecordedAll(old(governed), ListsIn(n))
      decreases Size(n), 2
    {
      match n
      case Function(_, _, _, _, body) => Collect(body);
      case Block(_, _, body) => Collect(body);
      case For(_, _, _, _, _, body) => Collect(body);
      case ExpressionStatement(_, _, value) => CollectArms(value);
      case Let(_, _, _, _, value) => CollectArms(value);
      case _ =>
    }

    method CollectArms(e: Node)
      modifies this
      ensures governed == RecordedAll(old(governed), ArmLists(e))
      decreases Size(e), 1
    {
      if e.If? {
        RecordedOfConcat(governed, Lists(e.cons), Lists(e.alt));
        Collect(e.cons);
        Collect(e.alt);
      } else if e.Match? {
        CollectMatch(e);
      }
    }

    method CollectMatch(e: Node)
      requires e.Match?
      modifies this
      ensures governed == RecordedAll(old(governed), ArmLists(e))
      decreases Size(e), 0
    {
      RecordedOfConcat(governed, BodyLists(e.arms), NestedIn(e.matched) + HeadLists(e.arms));
      CollectBodies(e.arms);
      RecordedOfConcat(governed, NestedIn(e.matched), HeadLists(e.arms));
      CollectNestedIn(e.matched);
      CollectHeads(e.arms);
    }

    method CollectBodies(arms: seq<Node>)
      modifies this
      ensures governed == RecordedAll(old(governed), BodyLists(arms))
      decreases SizeAll(arms), 5
    {
      for i := 0 to |arms|
        invariant RecordedAll(governed, BodyLists(arms[i..])) == RecordedAll(old(governed), BodyLists(arms))
      {
        SizeOfElement(arms, i);
        assert arms[i..][1..] == arms[i + 1..];
        RecordedOfConcat(governed, BodyIn(arms[i]), BodyLists(arms[i + 1..]));
        if arms[i].Arm? {
          Collect(arms[i].body);
        }
      }
    }

    method CollectHeads(arms: seq<Node>)
      modifies this
      ensures governed == RecordedAll(old(governed), HeadLists(arms))
      decreases SizeAll(arms), 5
    {
      for i := 0 to |arms|
        invariant RecordedAll(governed, HeadLists(arms[i..])) == RecordedAll(old(governed), HeadLists(arms))
      {
        SizeOfElement(arms, i);
        assert arms[i..][1..] == arms[i + 1..];
        RecordedOfConcat(governed, HeadIn(arms[i]), HeadLists(arms[i + 1..]));
        CollectHead(arms[i]);
      }
    }

    method CollectHead(arm: Node)
      modifies this
      ensures governed == RecordedAll(old(governed), HeadIn(arm))
      decreases Size(arm), 4
    {
      if arm.Arm? {
        RecordedOfConcat(governed, NestedIn(arm.cond), NestedLists(arm.patterns));
        CollectNestedIn(arm.cond);
        CollectNested(arm.patterns);
      }
    }

    method CollectNestedIn(e: Node)
      modifies this
      ensures governed == RecordedAll(old(governed), NestedIn(e))
      decreases Size(e), 1
    {
      if e.Match? {
        CollectMatch(e);
      }
    }

    method CollectNested(es: seq<Node>)
      modifies this
      ensures governed == RecordedAll(old(governed), NestedLists(es))
      decreases SizeAll(es), 5
    {
      for i := 0 to |es|
        invariant RecordedAll(governed, NestedLists(es[i..])) == RecordedAll(old(governed), NestedLists(es))
      {
        SizeOfElement(es, i);
        assert es[i..][1..] == es[i + 1..];
        RecordedOfConcat(governed, NestedIn(es[i]), NestedLists(es[i + 1..]));
        CollectNestedIn(es[i]);
      }
    }
  }

  /** Both results that the formatter uses. */
  method OverflowAnnotationRelevance(p: seq<Node>, e: Scope, top: Table)
    returns (relevant: set<nat>, governed: map<nat, nat>)
    ensures relevant == Relevant(p, e, top)
    ensures governed == Governed(p)
  {
    relevant := StatementsWithIntOverflow(p, e, top);
    var collector := new Collector();
    collector.Collect(p);
    governed := collector.governed;
  }

  function Governed(p: seq<Node>): map<nat, nat> {
    RecordedAll(map[], Lists(p))
  }

  // ---------------------------------------------------------------------------------------
  // Annotation and statement determine each other

  /** An annotation speaks for one statement at most, and a statement is spoken for by one at most. */
  lemma GovernsOne(list: seq<Node>, i: int, j: int, k: int, l: int)
    requires Governs(list, i, j) && Governs(list, k, l)
    ensures i == k <==> j == l
  {
  }

  ghost predicate IdsApart(list: seq<Node>) {
    forall i, k :: 0 <= i < k < |list| && IsStatement(list[i]) && IsStatement(list[k]) ==> list[i].id != list[k].id
  }

  function Ids(list: seq<Node>): set<nat> {
    set n | n in list && IsStatement(n) :: n.id
  }

  function IdsOfAll(lists: seq<seq<Node>>): set<nat> {
    if lists == [] then {} else Ids(lists[0]) + IdsOfAll(lists[1..])
  }

  /** No statement stands in two places. */
  ghost predicate Apart(lists: seq<seq<Node>>) {
    lists == [] || (IdsApart(lists[0]) && Ids(lists[0]) !! IdsOfAll(lists[1..]) && Apart(lists[1..]))
  }

  ghost predicate SpeaksIn(list: seq<Node>, i: nat, j: nat, note: nat, stmt: nat) {
    Governs(list, i, j) && list[i].id == note && list[j].id == stmt
  }

  /** Some list has the annotation speak for the statement. */
  ghost predicate Speaks(lists: seq<seq<Node>>, note: nat, stmt: nat) {
    exists p, i, j :: 0 <= p < |lists| && SpeaksIn(lists[p], i, j, note, stmt)
  }

  ghost predicate SpeaksFrom(list: seq<Node>, from: nat, note: nat, stmt: nat) {
    exists i, j :: i >= from && SpeaksIn(list, i, j, note, stmt)
  }

  predicate Maps(g: map<nat, nat>, note: nat, stmt: nat) {
    note in g && g[note] == stmt
  }

  lemma {:induction false} RecordedIff(g: map<nat, nat>, list: seq<Node>, from: nat, note: nat, stmt: nat)
    requires from <= |list| && IdsApart(list)
    requires forall i :: from <= i < |list| && IsOverflowNote(list[i]) ==> list[i].id !in g
    ensures Maps(Recorded(g, list, from), note, stmt) <==> Maps(g, note, stmt) || SpeaksFrom(list, from, note, stmt)
    decreases |list| - from
  {
    if from < |list| {
      if IsOverflowNote(list[from]) && NextPlain(list, from + 1).Some? {
        var j := NextPlain(list, from + 1).value;
        var h := g[list[from].id := list[j].id];
        RecordedIff(h, list, from + 1, note, stmt);
        assert SpeaksIn(list, from, j, list[from].id, list[j].id);
        forall l: nat | SpeaksIn(list, from, l, note, stmt)
          ensures Maps(h, note, stmt)
        {
          NextIffGoverns(list, from, l);
        }
      } else {
        RecordedIff(g, list, from + 1, note, stmt);
        forall l: nat | SpeaksIn(list, from, l, note, stmt)
          ensures false
        {
          NextIffGoverns(list, from, l);
        }
      }
    }
  }

  lemma {:induction false} RecordedAllIff(g: map<nat, nat>, lists: seq<seq<Node>>, note: nat, stmt: nat)
    requires Apart(lists) && g.Keys !! IdsOfAll(lists)
    ensures Maps(RecordedAll(g, lists), note, stmt) <==> Maps(g, note, stmt) || Speaks(lists, note, stmt)
    decreases |lists|
  {
    if lists != [] {
      var list, rest := lists[0], lists[1..];
      var h := Recorded(g, list, 0);
      forall i | 0 <= i < |list| && IsOverflowNote(list[i])
        ensures list[i].id !in g
      {
        assert list[i].id in Ids(list);
      }
      RecordedIff(g, list, 0, note, stmt);
      RecordedKeys(g, list, 0);
      RecordedAllIff(h, rest, note, stmt);
      SpeaksInHead(lists, note, stmt);
    }
  }

  lemma SpeaksInHead(lists: seq<seq<Node>>, note: nat, stmt: nat)
    requires lists != []
    ensures Speaks(lists, note, stmt) <==> SpeaksFrom(lists[0], 0, note, stmt) || Speaks(lists[1..], note, stmt)
  {
    var rest := lists[1..];
    if Speaks(lists, note, stmt) {
      var p, i, j :| 0 <= p < |lists| && SpeaksIn(lists[p], i, j, note, stmt);
      if p > 0 {
        assert rest[p - 1] == lists[p];
      }
    }
    if Speaks(rest, note, stmt) {
      var p, i, j :| 0 <= p < |rest| && SpeaksIn(rest[p], i, j, note, stmt);
      assert lists[p + 1] == rest[p];
    }
  }

  lemma {:induction false} RecordedKeys(g: map<nat, nat>, list: seq<Node>, from: nat)
    requires from <= |list|
    ensures Recorded(g, list, from).Keys <= g.Keys + Ids(list)
    decreases |list| - from
  {
    if from < |list| {
      if IsOverflowNote(list[from]) && NextPlain(list, from + 1).Some? {
        assert list[from].id in Ids(list);
        RecordedKeys(g[list[from].id := list[NextPlain(list, from + 1).value].id], list, from + 1);
      } else {
        RecordedKeys(g, list, from + 1);
      }
    }
  }

  lemma {:induction false} OnePlace(lists: seq<seq<Node>>, p: nat, i: nat, q: nat, k: nat)
    requires Apart(lists) && p < |lists| && q < |lists| && i < |lists[p]| && k < |lists[q]|
    requires IsStatement(lists[p][i]) && IsStatement(lists[q][k]) && lists[p][i].id == lists[q][k].id
    ensures p == q && i == k
  {
    if p > 0 && q > 0 {
      OnePlace(lists[1..], p - 1, i, q - 1, k);
    } else if p > 0 {
      assert lists[q][k].id in Ids(lists[0]);
      InAll(lists[1..], p - 1, lists[p][i]);
    } else if q > 0 {
      assert lists[p][i].id in Ids(lists[0]);
      InAll(lists[1..], q - 1, lists[q][k]);
    }
  }

  lemma {:induction false} InAll(lists: seq<seq<Node>>, p: nat, n: Node)
    requires p < |lists| && n in lists[p] && IsStatement(n)
    ensures n.id in IdsOfAll(lists)
  {
    if p == 0 {
      assert n.id in Ids(lists[0]);
    } else {
      InAll(lists[1..], p - 1, n);
    }
  }
}

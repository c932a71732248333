/** The bounded cache: a hash map into the elements of a doubly linked list whose front is the
    entry used longest ago. Each call holds the lock throughout, so it is one atomic step. */
module Lru {
  import opened Sequences

  datatype Pair<V> = Pair(key: string, val: V)

  // ---------------------------------------------------------------------------------------
  // What the operations mean, on the sequence of entries from oldest to newest use

  predicate Has<V>(s: seq<Pair<V>>, key: string)
  {
    exists i :: 0 <= i < |s| && s[i].key == key
  }

  ghost predicate DistinctKeys<V>(s: seq<Pair<V>>)
  {
    forall i, j :: 0 <= i < j < |s| ==> s[i].key != s[j].key
  }

  ghost function Keys<V>(s: seq<Pair<V>>): (r: set<string>)
    ensures forall k :: k in r <==> Has(s, k)
  {
    set i | 0 <= i < |s| :: s[i].key
  }

  lemma {:induction false} KeyCount<V>(s: seq<Pair<V>>)
    requires DistinctKeys(s)
    ensures |Keys(s)| == |s|
  {
    if s != [] {
      KeyCount(s[1..]);
      assert Keys(s) == {s[0].key} + Keys(s[1..]);
    }
  }

  /** s without the entries of key. */
  ghost function Without<V>(s: seq<Pair<V>>, key: string): (r: seq<Pair<V>>)
    ensures !Has(s, key) ==> r == s
  {
    if s == [] then []
    else if s[0].key == key then Without(s[1..], key)
    else
      assert !Has(s, key) ==> !Has(s[1..], key);
      [s[0]] + Without(s[1..], key)
  }

  lemma {:induction false} WithoutAt<V>(s: seq<Pair<V>>, i: nat)
    requires i < |s| && DistinctKeys(s)
    ensures Without(s, s[i].key) == s[..i] + s[i + 1..]
  {
    if i == 0 {
      assert !Has(s[1..], s[0].key);
    } else {
      var rest := s[1..];
      assert rest[i - 1] == s[i] && s[0].key != s[i].key;
      WithoutAt(rest, i - 1);
      SpliceTail(s, i);
    }
  }

  lemma SpliceTail<T>(s: seq<T>, i: nat)
    requires 0 < i < |s|
    ensures s[..i] + s[i + 1..] == [s[0]] + (s[1..][..i - 1] + s[1..][i..])
  {
    assert s[1..][i..] == s[i + 1..];
    assert s[..i] == [s[0]] + s[1..][..i - 1];
  }

  /** The value of key, for a sequence that has it. */
  ghost function ValueOf<V>(s: seq<Pair<V>>, key: string): (v: V)
    requires Has(s, key)
    ensures exists i :: 0 <= i < |s| && s[i] == Pair(key, v)
  {
    var i :| 0 <= i < |s| && s[i].key == key;
    s[i].val
  }

  lemma ValueAt<V>(s: seq<Pair<V>>, i: nat)
    requires i < |s| && DistinctKeys(s)
    ensures ValueOf(s, s[i].key) == s[i].val
  {
    var v := ValueOf(s, s[i].key);
    var j :| 0 <= j < |s| && s[j] == Pair(s[i].key, v);
  }

  /** Moving the entry at position i to the end. */
  lemma MovedToEnd<V>(s: seq<Pair<V>>, i: nat, r: seq<Pair<V>>)
    requires i < |s| && DistinctKeys(s)
    requires r == s[..i] + s[i + 1..] + [s[i]]
    ensures forall k :: Has(s, k) ==> Has(r, k)
    ensures r == GetSpec(s, s[i].key)
  {
    WithoutAt(s, i);
    ValueAt(s, i);
    forall k | Has(s, k)
      ensures Has(r, k)
    {
      var j :| 0 <= j < |s| && s[j].key == k;
      if j == i {
        assert r[|s| - 1].key == k;
      } else if j < i {
        assert r[j].key == k;
      } else {
        assert r[j - 1].key == k;
      }
    }
  }

  /** Giving the entry at position i a new value. */
  lemma Revalued<V>(s: seq<Pair<V>>, i: nat, val: V, r: seq<Pair<V>>)
    requires i < |s| && DistinctKeys(s)
    requires r == s[i := Pair(s[i].key, val)]
    ensures forall k :: Has(s, k) ==> Has(r, k)
    ensures DistinctKeys(r)
    ensures GetSpec(r, s[i].key) == Without(s, s[i].key) + [Pair(s[i].key, val)]
  {
    forall k | Has(s, k)
      ensures Has(r, k)
    {
      var j :| 0 <= j < |s| && s[j].key == k;
      assert r[j].key == k;
    }
    WithoutAt(s, i);
    WithoutAt(r, i);
    ValueAt(r, i);
    assert r[..i] == s[..i] && r[i + 1..] == s[i + 1..];
  }

  lemma DroppedOldest<V>(s: seq<Pair<V>>)
    requires DistinctKeys(s) && s != []
    ensures forall k :: Has(s[1..], k) <==> Has(s, k) && k != s[0].key
  {
    forall k | Has(s, k) && k != s[0].key
      ensures Has(s[1..], k)
    {
      var j :| 0 <= j < |s| && s[j].key == k;
      assert s[1..][j - 1].key == k;
    }
    forall k | Has(s[1..], k)
      ensures Has(s, k) && k != s[0].key
    {
      var j :| 0 <= j < |s| - 1 && s[1..][j].key == k;
      assert s[j + 1].key == k;
    }
  }

  lemma Appended<V>(s: seq<Pair<V>>, p: Pair<V>)
    ensures forall k :: Has(s + [p], k) <==> Has(s, k) || k == p.key
  {
    forall k | Has(s, k)
      ensures Has(s + [p], k)
    {
      var j :| 0 <= j < |s| && s[j].key == k;
      assert (s + [p])[j].key == k;
    }
    assert (s + [p])[|s|] == p;
  }

  ghost function GetSpec<V>(s: seq<Pair<V>>, key: string): seq<Pair<V>>
  {
    if Has(s, key) then Without(s, key) + [Pair(key, ValueOf(s, key))] else s
  }

  ghost function PutSpec<V>(capacity: nat, s: seq<Pair<V>>, key: string, val: V): seq<Pair<V>>
  {
    if Has(s, key) then Without(s, key) + [Pair(key, val)]
    else if |s| >= capacity > 0 then s[1..] + [Pair(key, val)]
    else s + [Pair(key, val)]
  }

  /** Where the element at position j was before the one at i moved to the end of n. */
  function Source(n: nat, i: nat, j: nat): nat
  {
    if j < i then j else if j + 1 == n then i else j + 1
  }

  lemma MovedAt<T>(s: seq<T>, i: nat, j: nat)
    requires i < |s| && j < |s|
    ensures Source(|s|, i, j) < |s| && (s[..i] + s[i + 1..] + [s[i]])[j] == s[Source(|s|, i, j)]
  {
  }

  // ---------------------------------------------------------------------------------------
  // The doubly linked list

  /** Taking one element out of a sequence. */
  lemma SpliceDistinct<T>(s: seq<T>, i: nat)
    requires i < |s| && Distinct(s)
    ensures Distinct(s[..i] + s[i + 1..])
  {
  }

  class Element<V> {
    var prev: Element?<V>
    var next: Element?<V>
    const key: string
    var val: V

    constructor (key: string, val: V)
      ensures this.key == key && this.val == val
    {
      this.key, this.val := key, val;
      prev, next := null, null;
    }
  }

  /** The element at position i of a sequence, null off either end. */
  ghost function ElementAt<V>(s: seq<Element<V>>, i: int): (e: Element?<V>)
  {
    if 0 <= i < |s| then s[i] else null
  }

  lemma SplicedAt<V>(s: seq<Element<V>>, i: nat, j: int)
    requires i < |s|
    ensures ElementAt(s[..i] + s[i + 1..], j) == ElementAt(s, if j < i then j else j + 1)
  {
  }

  class List<V> {
    var front: Element?<V>
    var back: Element?<V>
    var len: nat
    ghost var nodes: seq<Element<V>>

    /** The element at position i of the list, null off either end. */
    ghost function At(i: int): (e: Element?<V>)
      reads this
      ensures e == null <==> !(0 <= i < |nodes|)
      ensures e != null ==> e == nodes[i]
    {
      ElementAt(nodes, i)
    }

    ghost predicate Valid()
      reads this, nodes`next, nodes`prev
    {
      && len == |nodes|
      && Distinct(nodes)
      && front == At(0) && back == At(|nodes| - 1)
      && Chained()
    }

    /** Each element points to the one before it and to the one after it. */
    ghost predicate Chained()
      reads this, nodes`next, nodes`prev
    {
      && (forall i {:trigger nodes[i].prev} :: 0 <= i < |nodes| ==> nodes[i].prev == At(i - 1))
      && (forall i {:trigger nodes[i].next} :: 0 <= i < |nodes| ==> nodes[i].next == At(i + 1))
    }

    constructor ()
      ensures Valid() && nodes == []
    {
      front, back, len, nodes := null, null, 0, [];
    }

    method Init()
      modifies this
      ensures Valid() && nodes == []
    {
      front, back, len, nodes := null, null, 0, [];
    }

    /** Links e in after the last element. */
    method InsertBack(e: Element<V>)
      requires Valid() && e !in nodes
      modifies this, nodes`next, e`prev, e`next
      ensures Valid() && nodes == old(nodes) + [e]
    {
      e.prev, e.next := back, null;
      if back == null {
        front := e;
      } else {
        back.next := e;
      }
      back, len := e, len + 1;
      nodes := nodes + [e];
    }

    /** All but the element at position i are linked as if it were not there. */
    ghost predicate Bypassed(s: seq<Element<V>>, i: nat)
      reads s`next, s`prev
    {
      && (forall k {:trigger s[k].prev} :: 0 <= k < |s| && k != i ==>
            s[k].prev == ElementAt(s, if k == i + 1 then i - 1 else k - 1))
      && (forall k {:trigger s[k].next} :: 0 <= k < |s| && k != i ==>
            s[k].next == ElementAt(s, if k + 1 == i then i + 1 else k + 1))
    }

    /** Makes the neighbours of e point to each other. */
    method Bypass(e: Element<V>, ghost i: nat)
      requires Valid() && i < |nodes| && nodes[i] == e
      modifies this`front, this`back, nodes`next, nodes`prev
      ensures front == ElementAt(nodes, if i == 0 then 1 else 0)
      ensures back == ElementAt(nodes, if i == |nodes| - 1 then i - 1 else |nodes| - 1)
      ensures Bypassed(nodes, i)
    {
      var p, n := e.prev, e.next;
      assert p == nodes[i].prev == At(i - 1);
      assert n == nodes[i].next == At(i + 1);
      if p == null {
        front := n;
      } else {
        p.next := n;
      }
      if n == null {
        back := p;
      } else {
        n.prev := p;
      }
    }

    /** Without the element, the others are linked as they should be. */
    lemma Respliced(was: seq<Element<V>>, i: nat)
      requires i < |was| && nodes == was[..i] + was[i + 1..] && Bypassed(was, i)
      ensures Chained()
    {
      forall j | 0 <= j < |nodes|
        ensures nodes[j].prev == At(j - 1) && nodes[j].next == At(j + 1)
      {
        SplicedAt(was, i, j - 1);
        SplicedAt(was, i, j);
        SplicedAt(was, i, j + 1);
      }
    }

    lemma EndsSpliced(was: seq<Element<V>>, i: nat)
      requires i < |was| && nodes == was[..i] + was[i + 1..]
      ensures At(0) == ElementAt(was, if i == 0 then 1 else 0)
      ensures At(|nodes| - 1) == ElementAt(was, if i == |was| - 1 then i - 1 else |was| - 1)
    {
      SplicedAt(was, i, 0);
      SplicedAt(was, i, |nodes| - 1);
    }

    lemma Unlinked(was: seq<Element<V>>, i: nat)
      requires i < |was| && Distinct(was) && nodes == was[..i] + was[i + 1..] && len == |nodes|
      requires front == ElementAt(was, if i == 0 then 1 else 0)
      requires back == ElementAt(was, if i == |was| - 1 then i - 1 else |was| - 1)
      requires Bypassed(was, i)
      ensures Valid()
    {
      SpliceDistinct(was, i);
      EndsSpliced(was, i);
      Respliced(was, i);
    }

    /** Unlinks e, wherever it stands; i is its position. */
    method Remove(e: Element<V>, ghost i: nat)
      requires Valid() && i < |nodes| && nodes[i] == e
      modifies this, nodes`next, nodes`prev
      ensures Valid() && nodes == old(nodes)[..i] + old(nodes)[i + 1..]
    {
      Bypass(e, i);
      ghost var was := nodes;
      len := len - 1;
      nodes := was[..i] + was[i + 1..];
      Unlinked(was, i);
    }

    method PushBack(key: string, val: V) returns (e: Element<V>)
      requires Valid()
      modifies this, nodes`next
      ensures fresh(e) && e.key == key && e.val == val
      ensures Valid() && nodes == old(nodes) + [e]
    {
      e := new Element(key, val);
      InsertBack(e);
    }

    method MoveToBack(e: Element<V>, ghost i: nat)
      requires Valid() && i < |nodes| && nodes[i] == e
      modifies this, nodes`next, nodes`prev
      ensures Valid() && nodes == old(nodes)[..i] + old(nodes)[i + 1..] + [e]
    {
      if back == e {
        assert i == |nodes| - 1;
        return;
      }
      Remove(e, i);
      InsertBack(e);
    }
  }

  // ---------------------------------------------------------------------------------------
  // The cache

  const DEFAULT_CAPACITY := 1024

  class LRU<V(0)> {
    const capacity: nat
    var items: map<string, Element<V>>
    const ll: List<V>
    /** The entries, oldest use first. */
    ghost var contents: seq<Pair<V>>

    /** The map and the list are in step: they hold the same keys, each once. */
    ghost predicate Valid()
      reads this, ll, ll.nodes
    {
      && ll.Valid()
      && |contents| == |ll.nodes| <= capacity && 1 <= capacity
      && (forall i :: 0 <= i < |contents| ==> Linked(i))
      && (forall k :: k in items ==> Has(contents, k))
    }

    ghost predicate Linked(i: nat)
      reads this, ll, ll.nodes
      requires i < |contents| == |ll.nodes|
    {
      && contents[i] == Pair(ll.nodes[i].key, ll.nodes[i].val)
      && contents[i].key in items && items[contents[i].key] == ll.nodes[i]
    }

    constructor (capacity: int)
      ensures Valid() && fresh(ll) && contents == []
      ensures this.capacity == if capacity <= 0 then 1024 else capacity
    {
      this.capacity := if capacity <= 0 then DEFAULT_CAPACITY else capacity;
      items := map[];
      ll := new List();
      contents := [];
    }

    /** The map and the list are a bijection on keys. */
    lemma Bijection()
      requires Valid()
      ensures DistinctKeys(contents)
      ensures forall k :: k in items <==> Has(contents, k)
      ensures |items| == |contents|
    {
      forall i, j | 0 <= i < j < |contents|
        ensures contents[i].key != contents[j].key
      {
        assert Linked(i) && Linked(j);
      }
      forall k | Has(contents, k)
        ensures k in items
      {
        var i :| 0 <= i < |contents| && contents[i].key == k;
        assert Linked(i);
      }
      KeyCount(contents);
      assert items.Keys == Keys(contents);
    }

    /** Where the entry of a cached key stands. */
    lemma Position(key: string) returns (i: nat)
      requires Valid() && key in items
      ensures i < |contents| && contents[i].key == key && Linked(i)
    {
      i :| 0 <= i < |contents| && contents[i].key == key;
    }

    /** Moves the pair at position i to the end, in the list and in the contents. */
    method Reorder(el: Element<V>, ghost i: nat)
      requires Valid() && i < |contents| && ll.nodes[i] == el
      modifies this`contents, ll, ll.nodes`next, ll.nodes`prev
      ensures ll.Valid() && |contents| == |ll.nodes| == |old(contents)|
      ensures forall j :: 0 <= j < |contents| ==> Linked(j)
      ensures forall j :: 0 <= j < |ll.nodes| ==> ll.nodes[j] in old(ll.nodes)
      ensures contents == old(contents)[..i] + old(contents)[i + 1..] + [old(contents)[i]]
    {
      ghost var was, links := contents, ll.nodes;
      ll.MoveToBack(el, i);
      contents := was[..i] + was[i + 1..] + [was[i]];
      forall j | 0 <= j < |contents|
        ensures Linked(j) && ll.nodes[j] in links
      {
        MovedAt(was, i, j);
        MovedAt(links, i, j);
        assert old(Linked(Source(|was|, i, j)));
      }
    }

    /** Marks el, the element of a cached key, as the one used last. */
    method Touch(el: Element<V>)
      requires Valid() && el.key in items && items[el.key] == el
      modifies this`contents, ll, ll.nodes`next, ll.nodes`prev
      ensures Valid()
      ensures forall e :: e in ll.nodes ==> e in old(ll.nodes)
      ensures contents == GetSpec(old(contents), el.key)
    {
      Bijection();
      ghost var i := Position(el.key);
      Reorder(el, i);
      MovedToEnd(old(contents), i, contents);
    }

    method Get(key: string) returns (v: V, ok: bool)
      requires Valid()
      modifies this`contents, ll, ll.nodes`next, ll.nodes`prev
      ensures Valid()
      ensures ok <==> Has(old(contents), key)
      ensures ok ==> v == ValueOf(old(contents), key)
      ensures forall i :: 0 <= i < |ll.nodes| ==> ll.nodes[i] in old(ll.nodes)
      ensures contents == GetSpec(old(contents), key)
    {
      Bijection();
      if key in items {
        var el := items[key];
        ghost var i := Position(key);
        ValueAt(contents, i);
        Touch(el);
        return el.val, true;
      }
      var zero: V := *;
      return zero, false;
    }

    method Put(key: string, val: V)
      requires Valid()
      modifies this, ll, ll.nodes
      ensures Valid()
      ensures forall e :: e in ll.nodes ==> e in old(ll.nodes) || fresh(e)
      ensures contents == PutSpec(capacity, old(contents), key, val)
    {
      Bijection();
      if key in items {
        var el := items[key];
        ghost var i := Position(key);
        Revalue(el, val);
        Touch(el);
      } else {
        if ll.len >= capacity {
          if ll.front != null {
            DroppedOldest(contents);
            Evict();
          }
        }
        assert forall i :: 0 <= i < |ll.nodes| ==> ll.nodes[i] in old(ll.nodes);
        assert key !in items by {
          Bijection();
        }
        Insert(key, val);
      }
    }

    method Revalue(el: Element<V>, val: V)
      requires Valid() && el.key in items && items[el.key] == el
      modifies this`contents, el`val
      ensures Valid()
      ensures GetSpec(contents, el.key) == PutSpec(capacity, old(contents), el.key, val)
    {
      Bijection();
      ghost var i := Position(el.key);
      el.val := val;
      contents := contents[i := Pair(el.key, val)];
      Revalued(old(contents), i, val, contents);
      forall j | 0 <= j < |contents|
        ensures Linked(j)
      {
        assert old(Linked(j));
      }
    }

    method DropFront()
      requires Valid() && contents != []
      modifies this`items, ll, ll.nodes`next, ll.nodes`prev
      ensures ll.Valid() && ll.nodes == old(ll.nodes)[1..]
      ensures items == old(items) - {contents[0].key}
    {
      assert Linked(0);
      var front := ll.front;
      items := items - {front.key};
      ll.Remove(front, 0);
    }

    /** Drops the entry used longest ago. */
    method Evict()
      requires Valid() && contents != []
      modifies this, ll, ll.nodes`next, ll.nodes`prev
      ensures Valid()
      ensures ll.nodes == old(ll.nodes)[1..]
      ensures contents == old(contents)[1..]
    {
      Bijection();
      DroppedOldest(contents);
      DropFront();
      contents := contents[1..];
      forall j | 0 <= j < |contents|
        ensures Linked(j)
      {
        assert old(Linked(j + 1));
      }
    }

    /** Adds an entry for a key that is not cached, when there is room. */
    method Insert(key: string, val: V)
      requires Valid() && key !in items && |contents| < capacity
      modifies this, ll, ll.nodes`next, ll.nodes`prev
      ensures Valid()
      ensures forall e :: e in ll.nodes ==> e in old(ll.nodes) || fresh(e)
      ensures contents == old(contents) + [Pair(key, val)]
    {
      Appended(contents, Pair(key, val));
      var el := ll.PushBack(key, val);
      items := items[key := el];
      contents := contents + [Pair(key, val)];
      forall j | 0 <= j < |contents|
        ensures Linked(j)
      {
        if j < |contents| - 1 {
          assert old(Linked(j) && Has(contents, contents[j].key));
        }
      }
    }

    method Clear()
      requires Valid()
      modifies this, ll
      ensures Valid() && contents == []
    {
      items := map[];
      ll.Init();
      contents := [];
    }
  }
}

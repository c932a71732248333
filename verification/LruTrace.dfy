/** Whole runs of the bounded cache: what is in it, in which order, after any sequence of calls,
    and what a read-through client can rely on whatever the capacity. */
module LruTrace {
  import opened Lru
  import opened Sequences
  import opened Wrappers

  // ---------------------------------------------------------------------------------------
  // Arbitrary clients

  datatype Op<V> = GetOp(key: string) | PutOp(key: string, val: V) | ClearOp

  ghost function Step<V>(capacity: nat, s: seq<Pair<V>>, op: Op<V>): seq<Pair<V>>
  {
    match op
    case GetOp(k) => GetSpec(s, k)
    case PutOp(k, v) => PutSpec(capacity, s, k, v)
    case ClearOp => []
  }

  /** The contents of a cache of the given capacity after the calls of the trace. */
  ghost function Run<V>(capacity: nat, trace: seq<Op<V>>): seq<Pair<V>>
  {
    if trace == [] then []
    else Step(capacity, Run(capacity, trace[..|trace| - 1]), trace[|trace| - 1])
  }

  /** What a call gives: a read the value under its key, if there is one. */
  ghost function Reply<V>(s: seq<Pair<V>>, op: Op<V>): Option<V>
  {
    if op.GetOp? && Has(s, op.key) then Some(ValueOf(s, op.key)) else None
  }

  /** What each call of a trace gives. */
  ghost function Replies<V>(capacity: nat, trace: seq<Op<V>>): (r: seq<Option<V>>)
    ensures |r| == |trace|
  {
    if trace == [] then []
    else
      var before := trace[..|trace| - 1];
      Replies(capacity, before) + [Reply(Run(capacity, before), trace[|trace| - 1])]
  }

  /** An empty cache, taken through the calls of a trace. */
  method Replay<V(0)>(cache: LRU<V>, trace: seq<Op<V>>) returns (replies: seq<Option<V>>)
    requires cache.Valid() && cache.contents == []
    modifies cache, cache.ll, cache.ll.nodes
    ensures cache.Valid() && cache.contents == Run(cache.capacity, trace)
    ensures replies == Replies(cache.capacity, trace)
    ensures forall e :: e in cache.ll.nodes ==> e in old(cache.ll.nodes) || fresh(e)
  {
    replies := [];
    if trace != [] {
      replies := Replay(cache, trace[..|trace| - 1]);
      assert forall i :: 0 <= i < |cache.ll.nodes| ==>
                           cache.ll.nodes[i] in old(cache.ll.nodes) || fresh(cache.ll.nodes[i]);
      var reply := Perform(cache, trace[|trace| - 1]);
      replies := replies + [reply];
    }
  }

  method Perform<V(0)>(cache: LRU<V>, op: Op<V>) returns (reply: Option<V>)
    requires cache.Valid()
    modifies cache, cache.ll, cache.ll.nodes
    ensures cache.Valid()
    ensures forall e :: e in cache.ll.nodes ==> e in old(cache.ll.nodes) || fresh(e)
    ensures cache.contents == Step(cache.capacity, old(cache.contents), op)
    ensures reply == Reply(old(cache.contents), op)
  {
    reply := None;
    match op
    case GetOp(key) =>
      var v, ok := cache.Get(key);
      if ok {
        reply := Some(v);
      }
    case PutOp(key, val) => cache.Put(key, val);
    case ClearOp => cache.Clear();
  }

  /** op uses key: it writes it, or finds it. */
  ghost predicate Touches<V>(s: seq<Pair<V>>, op: Op<V>, key: string)
  {
    match op
    case GetOp(k) => k == key && Has(s, key)
    case PutOp(k, _) => k == key
    case ClearOp => false
  }

  /** The moment of the last call that used key, -1 when there was none. */
  ghost function LastUse<V>(capacity: nat, trace: seq<Op<V>>, key: string): (t: int)
    ensures -1 <= t < |trace|
  {
    if trace == [] then -1
    else
      var before := trace[..|trace| - 1];
      if Touches(Run(capacity, before), trace[|trace| - 1], key) then |trace| - 1
      else LastUse(capacity, before, key)
  }

  /** The value most recently written under key by the trace, if any. */
  ghost predicate LastWritten<V>(trace: seq<Op<V>>, key: string, val: V)
  {
    exists t :: 0 <= t < |trace| && trace[t] == PutOp(key, val)
             && forall u :: t < u < |trace| ==> !(trace[u].PutOp? && trace[u].key == key)
  }

  ghost predicate OrderedByUse<V>(capacity: nat, trace: seq<Op<V>>, s: seq<Pair<V>>)
  {
    forall i, j :: 0 <= i < j < |s| ==> LastUse(capacity, trace, s[i].key) < LastUse(capacity, trace, s[j].key)
  }

  lemma WithoutParts<V>(s: seq<Pair<V>>, key: string) returns (i: nat)
    requires Has(s, key) && DistinctKeys(s)
    ensures i < |s| && s[i].key == key && ValueOf(s, key) == s[i].val
    ensures Without(s, key) == s[..i] + s[i + 1..]
  {
    i :| 0 <= i < |s| && s[i].key == key;
    WithoutAt(s, i);
    ValueAt(s, i);
  }

  /** After every sequence of calls: no key twice, never over capacity, the entries stand in the
      order of their last use, and each carries the value last written under its key. */
  lemma {:induction false} RunInvariant<V>(capacity: nat, trace: seq<Op<V>>)
    requires capacity >= 1
    ensures var s := Run(capacity, trace);
      && DistinctKeys(s) && |s| <= capacity && OrderedByUse(capacity, trace, s)
      && forall i :: 0 <= i < |s| ==> LastWritten(trace, s[i].key, s[i].val)
  {
    if trace != [] {
      var n := |trace| - 1;
      var before, op := trace[..n], trace[n];
      RunInvariant(capacity, before);
      var s := Run(capacity, before);
      var r := Step(capacity, s, op);
      StepShape(capacity, s, op);
      forall i, j | 0 <= i < j < |r|
        ensures LastUse(capacity, trace, r[i].key) < LastUse(capacity, trace, r[j].key)
      {
        StepOrigin(capacity, s, op, i);
        StepOrigin(capacity, s, op, j);
      }
      forall i | 0 <= i < |r|
        ensures LastWritten(trace, r[i].key, r[i].val)
      {
        StepOrigin(capacity, s, op, i);
        if op.PutOp? && r[i].key == op.key {
          assert trace[n] == PutOp(r[i].key, r[i].val);
        } else {
          var t :| 0 <= t < n && before[t] == PutOp(r[i].key, r[i].val)
                   && forall u :: t < u < n ==> !(before[u].PutOp? && before[u].key == r[i].key);
          assert trace[t] == PutOp(r[i].key, r[i].val);
          forall u | t < u < |trace|
            ensures !(trace[u].PutOp? && trace[u].key == r[i].key)
          {
            assert u < n ==> trace[u] == before[u];
          }
        }
      }
    }
  }

  lemma StepShape<V>(capacity: nat, s: seq<Pair<V>>, op: Op<V>)
    requires capacity >= 1 && DistinctKeys(s) && |s| <= capacity
    ensures DistinctKeys(Step(capacity, s, op)) && |Step(capacity, s, op)| <= capacity
  {
    if !op.ClearOp? && Has(s, op.key) {
      WithoutDistinct(s, op.key);
      var val := if op.PutOp? then op.val else ValueOf(s, op.key);
      DistinctEnd(Without(s, op.key), Pair(op.key, val));
    } else if op.PutOp? {
      var rest := if |s| >= capacity then s[1..] else s;
      assert forall i :: 0 <= i < |rest| ==> rest[i] in s;
      DistinctEnd(rest, Pair(op.key, op.val));
    }
  }

  lemma WithoutDistinct<V>(s: seq<Pair<V>>, key: string)
    requires Has(s, key) && DistinctKeys(s)
    ensures DistinctKeys(Without(s, key)) && !Has(Without(s, key), key) && |Without(s, key)| == |s| - 1
  {
    var i := WithoutParts(s, key);
    var r := s[..i] + s[i + 1..];
    assert forall j :: 0 <= j < |r| ==> r[j] == s[if j < i then j else j + 1];
  }

  lemma DistinctEnd<V>(s: seq<Pair<V>>, p: Pair<V>)
    requires DistinctKeys(s) && !Has(s, p.key)
    ensures DistinctKeys(s + [p])
  {
  }

  /** Where entry i of the new contents comes from: an entry of the old contents further along
      or at the same place, keeping the order, unless it is the key just used, which stands last. */
  lemma StepOrigin<V>(capacity: nat, s: seq<Pair<V>>, op: Op<V>, i: nat)
    requires capacity >= 1 && DistinctKeys(s) && |s| <= capacity
    requires i < |Step(capacity, s, op)|
    ensures var r := Step(capacity, s, op);
      if Touches(s, op, r[i].key)
      then i == |r| - 1 && (op.PutOp? ==> r[i].val == op.val) && (op.GetOp? ==> r[i] in s)
      else exists j :: i <= j < |s| && s[j] == r[i] && j == Origin(s, op, capacity, i)
  {
    var r := Step(capacity, s, op);
    if !op.ClearOp? && Has(s, op.key) {
      var k := WithoutParts(s, op.key);
      if i < |r| - 1 {
        assert r[i] == s[if i < k then i else i + 1];
        assert Origin(s, op, capacity, i) == if i < k then i else i + 1;
      }
    } else if op.PutOp? && i < |r| - 1 {
      assert r[i] == s[Origin(s, op, capacity, i)];
    }
  }

  /** The old position of the entry that stands at position i after the step. */
  ghost function Origin<V>(s: seq<Pair<V>>, op: Op<V>, capacity: nat, i: nat): nat
  {
    if !op.ClearOp? && Has(s, op.key) then
      var k :| 0 <= k < |s| && s[k].key == op.key;
      if i < k then i else i + 1
    else if op.PutOp? && |s| >= capacity then i + 1
    else i
  }

  /** Eviction takes exactly the entry whose last use lies furthest back, and only when a key
      that is not cached is written to a full cache. */
  lemma EvictsLeastRecent<V>(capacity: nat, trace: seq<Op<V>>, op: Op<V>, key: string)
    requires capacity >= 1 && !op.ClearOp?
    requires Has(Run(capacity, trace), key)
    ensures var s := Run(capacity, trace);
      !Has(Run(capacity, trace + [op]), key) <==>
        && op.PutOp? && !Has(s, op.key) && |s| == capacity
        && forall k :: Has(s, k) && k != key ==> LastUse(capacity, trace, key) < LastUse(capacity, trace, k)
  {
    var s := Run(capacity, trace);
    RunInvariant(capacity, trace);
    assert (trace + [op])[..|trace|] == trace;
    StepDropsFirst(capacity, s, op, key);
    if op.PutOp? && !Has(s, op.key) && |s| == capacity {
      FirstIsLeastRecent(capacity, trace, s, key);
    }
  }

  /** What a step drops. */
  lemma StepDropsFirst<V>(capacity: nat, s: seq<Pair<V>>, op: Op<V>, key: string)
    requires capacity >= 1 && !op.ClearOp? && DistinctKeys(s) && |s| <= capacity && Has(s, key)
    ensures !Has(Step(capacity, s, op), key) <==>
      op.PutOp? && !Has(s, op.key) && |s| == capacity && s[0].key == key
  {
    var r := Step(capacity, s, op);
    var p :| 0 <= p < |s| && s[p].key == key;
    if Has(s, op.key) {
      var i := WithoutParts(s, op.key);
      assert r[if p < i then p else if p == i then |r| - 1 else p - 1].key == key;
    } else if op.PutOp? && |s| == capacity {
      if p > 0 {
        assert r[p - 1].key == key;
      } else {
        FullPutDropsFirst(capacity, s, op);
      }
    } else {
      assert r[p].key == key;
    }
  }

  lemma FullPutDropsFirst<V>(capacity: nat, s: seq<Pair<V>>, op: Op<V>)
    requires op.PutOp? && DistinctKeys(s) && |s| == capacity > 0 && !Has(s, op.key)
    ensures !Has(Step(capacity, s, op), s[0].key)
  {
    var r := Step(capacity, s, op);
    forall j | 0 <= j < |r|
      ensures r[j].key != s[0].key
    {
      assert j < |s| - 1 ==> r[j] == s[j + 1];
    }
  }

  lemma FirstIsLeastRecent<V>(capacity: nat, trace: seq<Op<V>>, s: seq<Pair<V>>, key: string)
    requires s != [] && OrderedByUse(capacity, trace, s) && Has(s, key)
    ensures s[0].key == key <==>
      forall k :: Has(s, k) && k != key ==> LastUse(capacity, trace, key) < LastUse(capacity, trace, k)
  {
    var p :| 0 <= p < |s| && s[p].key == key;
    assert Has(s, s[0].key);
    if p == 0 {
      forall k | Has(s, k) && k != key
        ensures LastUse(capacity, trace, key) < LastUse(capacity, trace, k)
      {
        var j :| 0 <= j < |s| && s[j].key == k;
      }
    } else if s[0].key != key {
      assert LastUse(capacity, trace, s[0].key) < LastUse(capacity, trace, s[p].key);
    }
  }

  // ---------------------------------------------------------------------------------------
  // Read-through clients: look a key up, and on a miss compute its value and store it

  datatype Request = Access(key: string) | Reset

  ghost function AccessSpec<V>(capacity: nat, f: string -> V, s: seq<Pair<V>>, key: string): seq<Pair<V>>
  {
    if Has(s, key) then GetSpec(s, key) else PutSpec(capacity, s, key, f(key))
  }

  ghost function Serve<V>(capacity: nat, f: string -> V, reqs: seq<Request>): seq<Pair<V>>
  {
    if reqs == [] then []
    else
      var s := Serve(capacity, f, reqs[..|reqs| - 1]);
      match reqs[|reqs| - 1]
      case Access(k) => AccessSpec(capacity, f, s, k)
      case Reset => []
  }

  /** The client of the token cache: a hit returns the cached value, a miss stores a new one. */
  method ReadThrough<V(0)>(c: LRU<V>, f: string -> V, key: string) returns (v: V)
    requires c.Valid()
    requires forall i :: 0 <= i < |c.contents| ==> c.contents[i].val == f(c.contents[i].key)
    modifies c, c.ll, c.ll.nodes
    ensures c.Valid()
    ensures v == f(key)
    ensures c.contents == AccessSpec(c.capacity, f, old(c.contents), key)
    ensures forall i :: 0 <= i < |c.contents| ==> c.contents[i].val == f(c.contents[i].key)
  {
    ghost var s := c.contents;
    c.Bijection();
    var cached, ok := c.Get(key);
    if ok {
      ghost var i := WithoutParts(s, key);
      return cached;
    }
    v := f(key);
    c.Put(key, v);
  }

  /** Every key of the run in the order of its last access, with no bound at all. */
  ghost function Recency(reqs: seq<Request>): seq<string>
  {
    if reqs == [] then []
    else
      var r := Recency(reqs[..|reqs| - 1]);
      match reqs[|reqs| - 1]
      case Access(k) => Dropped(r, k) + [k]
      case Reset => []
  }

  ghost function Dropped(r: seq<string>, key: string): seq<string>
  {
    if r == [] then []
    else if r[0] == key then Dropped(r[1..], key)
    else [r[0]] + Dropped(r[1..], key)
  }

  /** The last n elements of s, or all of them. */
  ghost function LastN<T>(s: seq<T>, n: nat): (r: seq<T>)
    ensures |r| == if |s| <= n then |s| else n
    ensures r == s[|s| - |r|..]
  {
    if |s| <= n then s else s[|s| - n..]
  }

  ghost function Paired<V>(r: seq<string>, f: string -> V): (s: seq<Pair<V>>)
    ensures |s| == |r|
    ensures forall i :: 0 <= i < |s| ==> s[i] == Pair(r[i], f(r[i]))
  {
    seq(|r|, i requires 0 <= i < |r| => Pair(r[i], f(r[i])))
  }

  lemma {:induction false} DroppedKeys(r: seq<string>, key: string)
    requires Distinct(r)
    ensures key !in r ==> Dropped(r, key) == r
    ensures Distinct(Dropped(r, key)) && key !in Dropped(r, key)
    ensures forall x :: x in Dropped(r, key) <==> x in r && x != key
  {
    if r != [] {
      DroppedKeys(r[1..], key);
      assert r == [r[0]] + r[1..];
      assert r[0] !in r[1..];
    }
  }

  lemma {:induction false} DroppedBetween(x: seq<string>, key: string, y: seq<string>)
    requires Distinct(x + [key] + y)
    ensures Dropped(x + [key] + y, key) == x + y
    ensures key !in x && key !in y
  {
    var r := x + [key] + y;
    assert r[|x|] == key;
    if x == [] {
      assert r[1..] == y;
      assert key !in y by {
        assert forall i :: 0 <= i < |y| ==> y[i] == r[i + 1];
      }
      assert Distinct(y) by {
        assert forall i :: 0 <= i < |y| ==> y[i] == r[i + 1];
      }
      DroppedKeys(y, key);
    } else {
      assert r[1..] == x[1..] + [key] + y;
      assert r[0] == x[0];
      DroppedBetween(x[1..], key, y);
      assert x == [x[0]] + x[1..];
      assert x + y == [x[0]] + (x[1..] + y);
    }
  }

  /** r around one of its elements. */
  lemma Around(r: seq<string>, key: string) returns (x: seq<string>, y: seq<string>)
    requires key in r
    ensures r == x + [key] + y
  {
    var i :| 0 <= i < |r| && r[i] == key;
    x, y := r[..i], r[i + 1..];
  }

  lemma {:induction false} RecencyDistinct(reqs: seq<Request>)
    ensures Distinct(Recency(reqs))
  {
    if reqs != [] {
      var before := reqs[..|reqs| - 1];
      RecencyDistinct(before);
      if reqs[|reqs| - 1].Access? {
        DroppedKeys(Recency(before), reqs[|reqs| - 1].key);
      }
    }
  }

  /** The contents are the most recent `capacity` keys of the unbounded recency list, each with
      the value of the function. */
  lemma {:induction false} ServeIsRecent<V>(capacity: nat, f: string -> V, reqs: seq<Request>)
    requires capacity >= 1
    ensures Serve(capacity, f, reqs) == Paired(LastN(Recency(reqs), capacity), f)
  {
    if reqs != [] {
      var before := reqs[..|reqs| - 1];
      ServeIsRecent(capacity, f, before);
      if reqs[|reqs| - 1].Access? {
        RecencyDistinct(before);
        AccessIsRecent(capacity, f, Recency(before), reqs[|reqs| - 1].key);
      }
    }
  }

  lemma PairedKeys<V>(r: seq<string>, f: string -> V)
    ensures forall k :: Has(Paired(r, f), k) <==> k in r
    ensures Distinct(r) ==> DistinctKeys(Paired(r, f))
  {
    var s := Paired(r, f);
    forall k | k in r
      ensures Has(s, k)
    {
      var i :| 0 <= i < |r| && r[i] == k;
      assert s[i].key == k;
    }
  }

  lemma LastNOf<T>(a: seq<T>, b: seq<T>, n: nat)
    requires |b| == n || (|b| <= n && a == [])
    ensures LastN(a + b, n) == b
  {
  }

  lemma AccessIsRecent<V>(capacity: nat, f: string -> V, r: seq<string>, key: string)
    requires capacity >= 1 && Distinct(r)
    ensures AccessSpec(capacity, f, Paired(LastN(r, capacity), f), key)
         == Paired(LastN(Dropped(r, key) + [key], capacity), f)
  {
    var l := LastN(r, capacity);
    PairedKeys(l, f);
    if key in l {
      var x, y := Around(l, key);
      HitKeepsRecent(r, capacity, x, key, y);
      PairedHit(x, key, y, f);
    } else {
      MissKeepsRecent(r, capacity, key);
      PairedMiss(l, key, f, capacity);
    }
  }

  lemma PairedMiss<V>(l: seq<string>, key: string, f: string -> V, capacity: nat)
    requires capacity >= 1
    ensures Paired((if |l| >= capacity then l[1..] else l) + [key], f)
         == (if |l| >= capacity then Paired(l, f)[1..] else Paired(l, f)) + [Pair(key, f(key))]
  {
  }

  lemma PairedHit<V>(x: seq<string>, key: string, y: seq<string>, f: string -> V)
    requires DistinctKeys(Paired(x + [key] + y, f))
    ensures Has(Paired(x + [key] + y, f), key)
    ensures GetSpec(Paired(x + [key] + y, f), key) == Paired(x + y + [key], f)
  {
    var s, p := Paired(x + [key] + y, f), Pair(key, f(key));
    var u, w := Paired(x, f), Paired(y, f);
    PairedOf(x, key, y, f);
    assert s[|u|] == p;
    WithoutAt(s, |u|);
    ValueAt(s, |u|);
    assert s[..|u|] == u && s[|u| + 1..] == w;
    PairedEnd(x, y, key, f);
  }

  lemma PairedOf<V>(x: seq<string>, key: string, y: seq<string>, f: string -> V)
    ensures Paired(x + [key] + y, f) == Paired(x, f) + [Pair(key, f(key))] + Paired(y, f)
  {
  }

  lemma PairedEnd<V>(x: seq<string>, y: seq<string>, key: string, f: string -> V)
    ensures Paired(x + y + [key], f) == Paired(x, f) + Paired(y, f) + [Pair(key, f(key))]
  {
  }

  /** Moving one of the last `capacity` keys to the end. */
  lemma HitKeepsRecent(r: seq<string>, capacity: nat, x: seq<string>, key: string, y: seq<string>)
    requires Distinct(r) && LastN(r, capacity) == x + [key] + y
    ensures LastN(Dropped(r, key) + [key], capacity) == x + y + [key]
  {
    var a := r[..|r| - |LastN(r, capacity)|];
    assert r == a + LastN(r, capacity);
    Associative(a, x + [key], y);
    Associative(a, x, [key]);
    DroppedBetween(a + x, key, y);
    Associative(a, x + y, [key]);
    Associative(a, x, y);
    LastNOf(a, x + y + [key], capacity);
  }

  /** Adding a key that is not among the last `capacity`. */
  lemma MissKeepsRecent(r: seq<string>, capacity: nat, key: string)
    requires Distinct(r) && capacity >= 1 && key !in LastN(r, capacity)
    ensures var l := LastN(r, capacity);
      LastN(Dropped(r, key) + [key], capacity) == (if |l| >= capacity then l[1..] else l) + [key]
  {
    var l := LastN(r, capacity);
    var a := r[..|r| - |l|];
    assert r == a + l;
    if key in r {
      var x, y := Around(a, key);
      MissFurtherBack(x, key, y, l);
    } else {
      DroppedKeys(r, key);
      if |l| >= capacity {
        HeadAndTail(l);
        Associative(a, [l[0]], l[1..]);
        Associative(a + [l[0]], l[1..], [key]);
        LastNOf(a + [l[0]], l[1..] + [key], capacity);
      } else {
        Associative(a, l, [key]);
        LastNOf(a, l + [key], capacity);
      }
    }
  }

  lemma MissFurtherBack(x: seq<string>, key: string, y: seq<string>, l: seq<string>)
    requires l != [] && Distinct(x + [key] + y + l)
    ensures LastN(Dropped(x + [key] + y + l, key) + [key], |l|) == l[1..] + [key]
  {
    Associative(x + [key], y, l);
    DroppedBetween(x, key, y + l);
    Associative(x, y, l);
    HeadAndTail(l);
    Associative(x + y, [l[0]], l[1..]);
    Associative(x + y + [l[0]], l[1..], [key]);
    LastNOf(x + y + [l[0]], l[1..] + [key], |l|);
  }

  /** LRU inclusion: whatever the run, the contents of a smaller cache are the tail of those of
      a larger one, in the same order. */
  lemma Inclusion<V>(c1: nat, c2: nat, f: string -> V, reqs: seq<Request>)
    requires 1 <= c1 <= c2
    ensures IsTail(Serve(c1, f, reqs), Serve(c2, f, reqs))
  {
    ServeIsRecent(c1, f, reqs);
    ServeIsRecent(c2, f, reqs);
    RecentTail(c1, c2, f, Recency(reqs));
  }

  /** a is the end of b. */
  ghost predicate IsTail<T>(a: seq<T>, b: seq<T>)
  {
    |a| <= |b| && a == b[|b| - |a|..]
  }

  lemma RecentTail<V>(c1: nat, c2: nat, f: string -> V, r: seq<string>)
    requires c1 <= c2
    ensures IsTail(Paired(LastN(r, c1), f), Paired(LastN(r, c2), f))
  {
    LastOfLast(r, c1, c2);
    PairedTail(LastN(r, c2), |LastN(r, c2)| - |LastN(r, c1)|, f);
  }

  lemma LastOfLast<T>(r: seq<T>, n: nat, m: nat)
    requires n <= m
    ensures |LastN(r, n)| <= |LastN(r, m)|
    ensures LastN(r, n) == LastN(r, m)[|LastN(r, m)| - |LastN(r, n)|..]
  {
  }

  lemma PairedTail<V>(r: seq<string>, i: nat, f: string -> V)
    requires i <= |r|
    ensures |Paired(r, f)| == |r| && Paired(r[i..], f) == Paired(r, f)[i..]
  {
  }

  /** The other keys accessed since the last access to key, if it was accessed since the last
      reset. */
  ghost function Since(reqs: seq<Request>, key: string): Window
  {
    if reqs == [] then Never
    else
      match reqs[|reqs| - 1]
      case Reset => Never
      case Access(k) =>
        if k == key then Keys({})
        else
          match Since(reqs[..|reqs| - 1], key)
          case Never => Never
          case Keys(s) => Keys(s + {k})
  }

  /** A request hits exactly when the key was accessed before, since the last reset, and fewer
      than `capacity` other keys have been accessed in between. */
  lemma HitIffStackDistance<V>(capacity: nat, f: string -> V, reqs: seq<Request>, key: string)
    requires capacity >= 1
    ensures Has(Serve(capacity, f, reqs), key) <==>
      Since(reqs, key).Keys? && |Since(reqs, key).others| < capacity
  {
    ServeIsRecent(capacity, f, reqs);
    RecencyDistinct(reqs);
    var r := Recency(reqs);
    PairedKeys(LastN(r, capacity), f);
    if key in r {
      var x, y := Around(r, key);
      SinceIsAfter(reqs, key);
      DroppedBetween(x, key, y);
      AfterBetween(x, key, y);
      assert Distinct(y) by {
        assert forall i :: 0 <= i < |y| ==> y[i] == r[|x| + 1 + i];
      }
      DistinctCount(y);
      InLastN(x, key, y, capacity);
    } else {
      SinceNever(reqs, key);
    }
  }

  lemma InLastN(x: seq<string>, key: string, y: seq<string>, n: nat)
    requires key !in y
    ensures key in LastN(x + [key] + y, n) <==> |y| < n
  {
    var r := x + [key] + y;
    var l := LastN(r, n);
    if |y| < n {
      assert l[|l| - |y| - 1] == r[|x|] == key;
    } else {
      LastNOf(x + [key] + y[..|y| - n], y[|y| - n..], n);
      assert r == x + [key] + y[..|y| - n] + y[|y| - n..];
    }
  }

  lemma {:induction false} SinceNever(reqs: seq<Request>, key: string)
    ensures Since(reqs, key).Never? <==> key !in Recency(reqs)
  {
    if reqs != [] {
      var before := reqs[..|reqs| - 1];
      SinceNever(before, key);
      RecencyDistinct(before);
      if reqs[|reqs| - 1].Access? {
        DroppedKeys(Recency(before), reqs[|reqs| - 1].key);
      }
    }
  }

  /** The keys that stand behind key. */
  ghost function After(r: seq<string>, key: string): set<string>
  {
    if r == [] then {}
    else if r[0] == key then Elements(r[1..])
    else After(r[1..], key)
  }

  lemma {:induction false} AfterBetween(x: seq<string>, key: string, y: seq<string>)
    requires key !in x
    ensures After(x + [key] + y, key) == Elements(y)
  {
    var r := x + [key] + y;
    if x == [] {
      assert r[1..] == y;
    } else {
      assert r[1..] == x[1..] + [key] + y;
      AfterBetween(x[1..], key, y);
    }
  }

  lemma {:induction false} AfterAccess(r: seq<string>, k: string, key: string)
    requires key in r && k != key && Distinct(r)
    ensures After(Dropped(r, k) + [k], key) == After(r, key) + {k}
  {
    DroppedKeys(r[1..], k);
    var d := Dropped(r[1..], k);
    if r[0] == key {
      assert (Dropped(r, k) + [k])[1..] == d + [k];
      assert Elements(d + [k]) == Elements(r[1..]) + {k};
    } else {
      assert key in r[1..];
      AfterAccess(r[1..], k, key);
      if r[0] != k {
        assert (Dropped(r, k) + [k])[1..] == d + [k];
      }
    }
  }

  lemma {:induction false} SinceIsAfter(reqs: seq<Request>, key: string)
    requires key in Recency(reqs)
    ensures Since(reqs, key) == Keys(After(Recency(reqs), key))
  {
    var before, last := reqs[..|reqs| - 1], reqs[|reqs| - 1];
    var r := Recency(before);
    RecencyDistinct(before);
    DroppedKeys(r, last.key);
    if last.key == key {
      AfterBetween(Dropped(r, key), key, []);
      assert Dropped(r, key) + [key] == Dropped(r, key) + [key] + [];
    } else {
      SinceIsAfter(before, key);
      AfterAccess(r, last.key, key);
    }
  }

  datatype Window = Never | Keys(others: set<string>)

  // ---------------------------------------------------------------------------------------
  // Content-addressed keys

  /** The key of a path and a content, for a digest function with results of a fixed length. */
  function Key(digest: string -> string, path: string, content: string): string
  {
    path + "\0" + digest(content)
  }

  /** Two keys are the same only for the same path and contents of the same digest, so a cached
      result is never served for a content with another digest. */
  lemma KeyInjective(digest: string -> string, size: nat, p1: string, c1: string, p2: string, c2: string)
    requires |digest(c1)| == size && |digest(c2)| == size
    ensures Key(digest, p1, c1) == Key(digest, p2, c2) <==> p1 == p2 && digest(c1) == digest(c2)
  {
    var k1, k2 := Key(digest, p1, c1), Key(digest, p2, c2);
    if k1 == k2 {
      assert p1 == k1[..|k1| - size - 1] && p2 == k2[..|k2| - size - 1];
      assert digest(c1) == k1[|k1| - size..] && digest(c2) == k2[|k2| - size..];
    }
  }
}

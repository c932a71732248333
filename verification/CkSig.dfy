/** The generated lookup layer of the self-hosted checker: string order, binary search over the
    ascending key columns, and the table of unique std-module owners. */
module CkSig {
  import opened Sequences
  import opened Wrappers
  import opened StringOrder

  // ---------------------------------------------------------------------------------------
  // Lookup routines

  /** Safe read of a string column: '' when the index is out of range. */
  function StrAt(v: seq<string>, i: int): (r: string)
    ensures 0 <= i < |v| ==> r == v[i]
    ensures !(0 <= i < |v|) ==> r == ""
  {
    if 0 <= i < |v| then v[i] else ""
  }

  /** The byte of an ASCII string as the optional value that `byte(i)` yields. */
  function ByteAt(s: string, i: int): (r: Option<int>)
    ensures r.Some? <==> 0 <= i < |s|
    ensures r.Some? ==> r.value == s[i] as int
  {
    if 0 <= i < |s| then Some(s[i] as int) else None
  }

  /** One flag per comparison, as in the generated code: 1 exactly when a precedes b. */
  method Lt(a: string, b: string) returns (lt: int)
    ensures lt == 1 <==> Less(a, b)
    ensures lt == 0 || lt == 1
  {
    lt := 0;
    var an, bn := |a|, |b|;
    var n := an;
    if bn < n {
      n := bn;
    }
    var i := 0;
    while i < n
      invariant 0 <= i <= n
      invariant a[..i] == b[..i]
    {
      var oa, ob := ByteAt(a, i), ByteAt(b, i);
      var ca := if oa.Some? then oa.value else 0;
      var cb := if ob.Some? then ob.value else 0;
      LessAt(a, b, i);
      if ca < cb {
        lt := 1;
        return;
      }
      if cb < ca {
        return;
      }
      i := i + 1;
    }
    LessAt(a, b, n);
    if an < bn {
      lt := 1;
    }
  }

  /** Binary search over an ascending column. The three arms are separate tests made one after
      the other; the second and third are still evaluated after the first has moved `lo`. */
  method BSearch(keys: seq<string>, name: string) returns (idx: int)
    requires Ascending(keys)
    ensures idx == -1 <==> name !in keys
    ensures idx != -1 ==> 0 <= idx < |keys| && keys[idx] == name
    ensures forall i :: 0 <= i < |keys| && keys[i] == name ==> i == idx
  {
    idx := -1;
    var lo, hi := 0, |keys|;
    while lo < hi
      invariant 0 <= lo <= hi <= |keys|
      invariant forall i :: 0 <= i < lo ==> Less(keys[i], name)
      invariant forall i :: hi <= i < |keys| ==> Less(name, keys[i])
      decreases hi - lo
    {
      var mid := lo + (hi - lo) / 2;
      var k := StrAt(keys, mid);
      LessTotal(k, name);
      LessIrreflexive(name);
      var before := Lt(k, name);
      if before == 1 {
        Below(keys, name, mid);
        lo := mid + 1;
      }
      var after := Lt(name, k);
      if after == 1 {
        Above(keys, name, mid);
        hi := mid;
      }
      if k == name {
        idx := mid;
        forall i | 0 <= i < |keys| && keys[i] == name
          ensures i == idx
        {
          AscendingDistinct(keys, i, mid);
        }
        return;
      }
    }
    LessIrreflexive(name);
  }

  lemma Below(keys: seq<string>, name: string, mid: nat)
    requires Ascending(keys) && mid < |keys| && Less(keys[mid], name)
    ensures forall i :: 0 <= i <= mid ==> Less(keys[i], name)
  {
    forall i | 0 <= i < mid
      ensures Less(keys[i], name)
    {
      LessTransitive(keys[i], keys[mid], name);
    }
  }

  lemma Above(keys: seq<string>, name: string, mid: nat)
    requires Ascending(keys) && mid < |keys| && Less(name, keys[mid])
    ensures forall i :: mid <= i < |keys| ==> Less(name, keys[i])
  {
    forall i | mid < i < |keys|
      ensures Less(name, keys[i])
    {
      LessTransitive(name, keys[mid], keys[i]);
    }
  }

  // ---------------------------------------------------------------------------------------
  // Unique owners

  /** Position of the first '.', or -1. */
  function IndexDot(s: string): (i: int)
    ensures -1 <= i < |s|
    ensures i >= 0 ==> s[i] == '.' && '.' !in s[..i]
    ensures i == -1 <==> '.' !in s
  {
    if s == [] then -1
    else if s[0] == '.' then 0
    else
      var j := IndexDot(s[1..]);
      assert j >= 0 ==> s[..j + 1] == [s[0]] + s[1..][..j];
      if j < 0 then -1 else j + 1
  }

  /** key is `mod.fn` with a non-empty, dot-free module part and a dot-free function part. */
  ghost predicate Names(key: string, mod: string, fn: string)
  {
    key == mod + "." + fn && mod != "" && '.' !in mod && '.' !in fn
  }

  /** Module m (known, not `global`) defines the plain function fn. */
  ghost predicate Defines(keys: set<string>, modules: set<string>, m: string, fn: string)
  {
    m in modules && m != "global" && m + "." + fn in keys && m != "" && '.' !in m && '.' !in fn
  }

  /** fn is owned by m: m defines it and no other module does. */
  ghost predicate Owns(keys: set<string>, modules: set<string>, m: string, fn: string)
  {
    Defines(keys, modules, m, fn) && forall m' :: Defines(keys, modules, m', fn) ==> m' == m
  }

  /** The tables that the two builders are meant to compute, stated on the set of keys alone. */
  ghost predicate IsOwnerTable(keys: set<string>, modules: set<string>, owner: map<string, string>,
                               globals: set<string>)
  {
    && (forall fn :: fn in owner ==> Owns(keys, modules, owner[fn], fn))
    && (forall fn, m :: Owns(keys, modules, m, fn) ==> fn in owner && owner[fn] == m)
    && (forall fn :: fn in globals <==> Names("global." + fn, "global", fn) && "global." + fn in keys)
  }

  /** There is only one such pair of tables, so every order of iteration, and both programs,
      produce the same. */
  lemma OwnerTableUnique(keys: set<string>, modules: set<string>,
                         o1: map<string, string>, g1: set<string>, o2: map<string, string>, g2: set<string>)
    requires IsOwnerTable(keys, modules, o1, g1) && IsOwnerTable(keys, modules, o2, g2)
    ensures o1 == o2 && g1 == g2
  {
    forall fn
      ensures fn in o1 <==> fn in o2
      ensures fn in o1 ==> o1[fn] == o2[fn]
    {
      if fn in o1 {
        assert Owns(keys, modules, o1[fn], fn);
      }
      if fn in o2 {
        assert Owns(keys, modules, o2[fn], fn);
      }
    }
    forall fn
      ensures fn in g1 <==> fn in g2
    {
    }
  }

  lemma SplitKey(key: string, i: nat)
    requires i < |key| && i == IndexDot(key) && i > 0
    ensures '.' !in key[i + 1..] ==> Names(key, key[..i], key[i + 1..])
    ensures '.' in key[i + 1..] ==> forall m, f :: !Names(key, m, f)
    ensures forall m, f :: Names(key, m, f) ==> m == key[..i] && f == key[i + 1..]
  {
    TakeAndDrop(key, i);
    HeadAndTail(key[i..]);
    assert key[i..][1..] == key[i + 1..];
    Associative(key[..i], ".", key[i + 1..]);
    forall m, f | Names(key, m, f)
      ensures m == key[..i] && f == key[i + 1..]
    {
      SplitUnique(m, f, key[..i], key[i + 1..]);
    }
  }

  lemma SplitUnique(m: string, f: string, m': string, f': string)
    requires m + "." + f == m' + "." + f'
    requires '.' !in m && '.' !in m'
    ensures m == m' && f == f'
  {
    FirstDot(m, f);
    FirstDot(m', f');
    var s := m + "." + f;
    assert m == s[..|m|] && m' == s[..|m'|];
    assert f == s[|m| + 1..] && f' == s[|m'| + 1..];
  }

  lemma {:induction false} FirstDot(m: string, f: string)
    requires '.' !in m
    ensures IndexDot(m + "." + f) == |m|
  {
    if m != [] {
      assert (m + "." + f)[1..] == m[1..] + "." + f;
      FirstDot(m[1..], f);
    }
  }

  /** The part of the table building that both programs share: what the accumulators hold once
      the keys in `seen` have been visited. */
  ghost predicate Accumulated(seen: set<string>, modules: set<string>, first: map<string, string>,
                              multi: set<string>, globals: set<string>)
  {
    && (forall fn :: fn in first ==> Defines(seen, modules, first[fn], fn))
    && (forall fn, m :: Defines(seen, modules, m, fn) ==> fn in first && (m != first[fn] ==> fn in multi))
    && (forall fn :: fn in multi ==> fn in first && exists m :: m != first[fn] && Defines(seen, modules, m, fn))
    && (forall fn :: fn in globals <==> Names("global." + fn, "global", fn) && "global." + fn in seen)
  }

  /** A key that names no `mod.fn`, or a function of an unknown module, changes no table. */
  lemma SkipKey(seen: set<string>, key: string, modules: set<string>, first: map<string, string>,
                multi: set<string>, globals: set<string>)
    requires Accumulated(seen, modules, first, multi, globals)
    requires forall m, f :: Names(key, m, f) ==> m != "global" && m !in modules
    ensures Accumulated(seen + {key}, modules, first, multi, globals)
  {
    forall fn, m
      ensures Defines(seen + {key}, modules, m, fn) <==> Defines(seen, modules, m, fn)
    {
      if Defines(seen + {key}, modules, m, fn) && m + "." + fn == key {
        assert Names(key, m, fn);
      }
    }
    forall fn
      ensures Names("global." + fn, "global", fn) && "global." + fn in seen + {key}
         <==> Names("global." + fn, "global", fn) && "global." + fn in seen
    {
      if Names("global." + fn, "global", fn) && "global." + fn == key {
        assert Names(key, "global", fn);
      }
    }
  }

  lemma GlobalKey(seen: set<string>, key: string, fn: string, modules: set<string>,
                  first: map<string, string>, multi: set<string>, globals: set<string>)
    requires Accumulated(seen, modules, first, multi, globals)
    requires Names(key, "global", fn)
    ensures Accumulated(seen + {key}, modules, first, multi, globals + {fn})
  {
    forall f, m
      ensures Defines(seen + {key}, modules, m, f) <==> Defines(seen, modules, m, f)
    {
      if Defines(seen + {key}, modules, m, f) && m + "." + f == key {
        SplitUnique(m, f, "global", fn);
      }
    }
    forall f
      ensures f in globals + {fn} <==> Names("global." + f, "global", f) && "global." + f in seen + {key}
    {
      if Names("global." + f, "global", f) && "global." + f == key {
        SplitUnique("global", f, "global", fn);
      }
    }
  }

  /** A definition fn of the known module mod: recorded as the first owner, or as a further one. */
  lemma ModuleKey(seen: set<string>, key: string, mod: string, fn: string, modules: set<string>,
                  first: map<string, string>, multi: set<string>, globals: set<string>)
    requires Accumulated(seen, modules, first, multi, globals)
    requires Names(key, mod, fn) && mod != "global" && mod in modules
    ensures Accumulated(seen + {key}, modules,
                        if fn in first then first else first[fn := mod],
                        if fn in first && first[fn] != mod then multi + {fn} else multi, globals)
  {
    var first' := if fn in first then first else first[fn := mod];
    var multi' := if fn in first && first[fn] != mod then multi + {fn} else multi;
    forall f, m
      ensures Defines(seen + {key}, modules, m, f) <==> Defines(seen, modules, m, f) || (m == mod && f == fn)
    {
      if Defines(seen + {key}, modules, m, f) && m + "." + f == key {
        SplitUnique(m, f, mod, fn);
      }
    }
    forall f | f in multi'
      ensures f in first' && exists m :: m != first'[f] && Defines(seen + {key}, modules, m, f)
    {
      if f in multi {
        var m :| m != first[f] && Defines(seen, modules, m, f);
        assert Defines(seen + {key}, modules, m, f);
      } else {
        assert Defines(seen + {key}, modules, mod, f);
      }
    }
    forall f
      ensures Names("global." + f, "global", f) && "global." + f in seen + {key}
         <==> Names("global." + f, "global", f) && "global." + f in seen
    {
      if Names("global." + f, "global", f) && "global." + f == key {
        SplitUnique("global", f, mod, fn);
      }
    }
  }

  lemma Finish(keys: set<string>, modules: set<string>, first: map<string, string>, multi: set<string>,
               globals: set<string>, owner: map<string, string>)
    requires Accumulated(keys, modules, first, multi, globals)
    requires owner == map fn | fn in first && fn !in multi :: first[fn]
    ensures IsOwnerTable(keys, modules, owner, globals)
  {
    forall fn, m | Owns(keys, modules, m, fn)
      ensures fn in owner && owner[fn] == m
    {
      assert Defines(keys, modules, m, fn);
      assert Defines(keys, modules, first[fn], fn);
    }
  }

  lemma ElementsStep(xs: seq<string>, n: nat)
    requires n < |xs|
    ensures Elements(xs[..n + 1]) == Elements(xs[..n]) + {xs[n]}
  {
    assert xs[..n + 1] == xs[..n] + [xs[n]];
  }

  /** buildStdFuncOwner: `order` is the order in which the map of signatures is iterated, which
      Go leaves open; the tables that come out do not depend on it. */
  method BuildStdFuncOwner(order: seq<string>, modules: set<string>)
    returns (owner: map<string, string>, globals: set<string>)
    ensures IsOwnerTable(Elements(order), modules, owner, globals)
  {
    owner := map[];
    globals := {};
    var firstOwner: map<string, string> := map[];
    var multiOwner: set<string> := {};
    for n := 0 to |order|
      invariant Accumulated(Elements(order[..n]), modules, firstOwner, multiOwner, globals)
    {
      ElementsStep(order, n);
      var key := order[n];
      var idx := IndexDot(key);
      if idx <= 0 {
        SkipUnqualified(Elements(order[..n]), key, modules, firstOwner, multiOwner, globals);
        continue;
      }
      SplitKey(key, idx);
      var mod, fn := key[..idx], key[idx + 1..];
      if IndexDot(fn) >= 0 {
        SkipKey(Elements(order[..n]), key, modules, firstOwner, multiOwner, globals);
        continue;
      }
      if mod == "global" {
        GlobalKey(Elements(order[..n]), key, fn, modules, firstOwner, multiOwner, globals);
        globals := globals + {fn};
        continue;
      }
      if mod in modules {
        ModuleKey(Elements(order[..n]), key, mod, fn, modules, firstOwner, multiOwner, globals);
        if fn in firstOwner {
          if firstOwner[fn] != mod {
            multiOwner := multiOwner + {fn};
          }
        } else {
          firstOwner := firstOwner[fn := mod];
        }
      } else {
        SkipKey(Elements(order[..n]), key, modules, firstOwner, multiOwner, globals);
      }
    }
    assert order[..|order|] == order;
    owner := map fn | fn in firstOwner && fn !in multiOwner :: firstOwner[fn];
    Finish(Elements(order), modules, firstOwner, multiOwner, globals, owner);
  }

  lemma SkipUnqualified(seen: set<string>, key: string, modules: set<string>, first: map<string, string>,
                        multi: set<string>, globals: set<string>)
    requires Accumulated(seen, modules, first, multi, globals)
    requires IndexDot(key) <= 0
    ensures Accumulated(seen + {key}, modules, first, multi, globals)
  {
    forall m, f | Names(key, m, f)
      ensures false
    {
      FirstDot(m, f);
    }
    SkipKey(seen, key, modules, first, multi, globals);
  }

  /** owner_map, the Python twin: it tests for a second owner before it records a first. */
  method OwnerMap(funcs: seq<string>, modules: seq<string>)
    returns (owner: map<string, string>, globals: set<string>)
    ensures IsOwnerTable(Elements(funcs), Elements(modules), owner, globals)
  {
    var mods := Elements(modules);
    var first: map<string, string> := map[];
    var multi: set<string> := {};
    globals := {};
    for n := 0 to |funcs|
      invariant Accumulated(Elements(funcs[..n]), mods, first, multi, globals)
    {
      ElementsStep(funcs, n);
      var k := funcs[n];
      var i := IndexDot(k);
      if i <= 0 {
        SkipUnqualified(Elements(funcs[..n]), k, mods, first, multi, globals);
        continue;
      }
      SplitKey(k, i);
      var mod, fn := k[..i], k[i + 1..];
      if '.' in fn {
        SkipKey(Elements(funcs[..n]), k, mods, first, multi, globals);
        continue;
      }
      if mod == "global" {
        GlobalKey(Elements(funcs[..n]), k, fn, mods, first, multi, globals);
        globals := globals + {fn};
        continue;
      }
      if mod in mods {
        ModuleKey(Elements(funcs[..n]), k, mod, fn, mods, first, multi, globals);
        if fn in first && first[fn] != mod {
          multi := multi + {fn};
        } else if fn !in first {
          first := first[fn := mod];
        }
      } else {
        SkipKey(Elements(funcs[..n]), k, mods, first, multi, globals);
      }
    }
    assert funcs[..|funcs|] == funcs;
    owner := map f | f in first && f !in multi :: first[f];
    Finish(Elements(funcs), mods, first, multi, globals, owner);
  }
}

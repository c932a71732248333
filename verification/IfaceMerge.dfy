/** Interface merging: every interface gets its own methods together with those of the interfaces
    it names, transitively; same-named methods must agree, and naming must not run in circles. */
module IfaceMerge {
  import opened Sequences
  import opened Wrappers
  import opened IfaceSig

  // ---------------------------------------------------------------------------------------
  // Declarations and lookup

  /** An interface declaration. A method slot may be empty. */
  datatype Decl = Decl(name: string, implements: seq<string>, methods: seq<Option<Method>>)

  datatype Statement = InterfaceStmt(decl: Decl) | OtherStmt

  /** What is known of a program: the first declaration of each name, the names in order of
      declaration, and the names by their base name. */
  datatype Tables = Tables(decls: map<string, Decl>, order: seq<string>, byBase: map<string, seq<string>>)

  function IndexOf(s: string, c: char): (i: int)
    ensures -1 <= i < |s|
    ensures i >= 0 ==> s[i] == c
  {
    if s == [] then -1
    else if s[0] == c then 0
    else
      var j := IndexOf(s[1..], c);
      if j < 0 then -1 else j + 1
  }

  function AfterLastDot(s: string): string
    decreases |s|
  {
    var i := IndexOf(s, '.');
    if i < 0 then s else AfterLastDot(s[i + 1..])
  }

  /** The name without its module prefix; container prefixes in brackets stay. */
  function BaseName(name: string): string
    decreases |name|
  {
    if name != [] && name[0] == '[' && IndexOf(name, ']') >= 0 then
      var j := IndexOf(name, ']');
      var rest := name[j + 1..];
      name[..j + 1] + BaseName(if rest != [] && rest[0] == '.' then rest[1..] else rest)
    else AfterLastDot(name)
  }

  function Candidates(t: Tables, base: string): seq<string>
  {
    if base in t.byBase then t.byBase[base] else []
  }

  /** The declared interface that a written name stands for: the full name first, then a base
      name that only one interface has. */
  function Lookup(t: Tables, ref: string): Option<string>
  {
    if ref == "" then None
    else if ref in t.decls then Some(ref)
    else
      var cands := Candidates(t, BaseName(ref));
      if |cands| == 1 then Some(cands[0]) else None
  }

  /** The names whose base name is base, in order. */
  function WithBase(names: seq<string>, base: string): seq<string>
  {
    if names == [] then []
    else (if BaseName(names[0]) == base then [names[0]] else []) + WithBase(names[1..], base)
  }

  ghost predicate ValidTables(t: Tables)
  {
    && (forall n :: n in t.order <==> n in t.decls)
    && (forall i, j :: 0 <= i < j < |t.order| ==> t.order[i] != t.order[j])
    && (forall n :: n in t.decls ==> n != "" && t.decls[n].name == n)
    && (forall b :: Candidates(t, b) == WithBase(t.order, b))
  }

  /** Whatever a name stands for is declared. */
  ghost predicate Sound(t: Tables)
  {
    forall ref :: Lookup(t, ref).Some? ==> Lookup(t, ref).value in t.decls
  }

  /** The declarations of a program that count: named, and the first of their name. */
  function Declared(program: seq<Statement>, seen: set<string>): seq<Decl>
  {
    if program == [] then []
    else if program[0].InterfaceStmt? && program[0].decl.name != "" && program[0].decl.name !in seen
    then [program[0].decl] + Declared(program[1..], seen + {program[0].decl.name})
    else Declared(program[1..], seen)
  }

  /** The tables of a list of declarations with distinct names. */
  ghost predicate TablesOf(t: Tables, ds: seq<Decl>)
  {
    && ValidTables(t)
    && |t.order| == |ds|
    && forall i :: 0 <= i < |ds| ==> t.order[i] == ds[i].name && ds[i].name in t.decls && t.decls[ds[i].name] == ds[i]
  }

  lemma {:induction false} WithBaseAppend(a: seq<string>, n: string, base: string)
    ensures WithBase(a + [n], base) == WithBase(a, base) + if BaseName(n) == base then [n] else []
  {
    if a == [] {
      assert a + [n] == [n] && [n][1..] == [];
    } else {
      assert (a + [n])[0] == a[0] && (a + [n])[1..] == a[1..] + [n];
      WithBaseAppend(a[1..], n, base);
      var first := if BaseName(a[0]) == base then [a[0]] else [];
      Associative(first, WithBase(a[1..], base), if BaseName(n) == base then [n] else []);
    }
  }

  lemma {:induction false} WithBaseMember(names: seq<string>, base: string)
    ensures forall c :: c in WithBase(names, base) <==> c in names && BaseName(c) == base
  {
    if names != [] {
      WithBaseMember(names[1..], base);
    }
  }

  lemma LookupDeclared(t: Tables, ref: string)
    requires ValidTables(t) && Lookup(t, ref).Some?
    ensures Lookup(t, ref).value in t.decls
  {
    if ref !in t.decls {
      var base := BaseName(ref);
      WithBaseMember(t.order, base);
      assert Candidates(t, base)[0] in WithBase(t.order, base);
    }
  }

  /** A name without a bracket prefix keeps what follows its last dot. */
  lemma {:induction false} BaseNameOfPlain(name: string)
    requires name == "" || name[0] != '[' || ']' !in name
    ensures '.' !in name ==> BaseName(name) == name
    ensures forall k {:trigger name[k..]} ::
              0 < k <= |name| && name[k - 1] == '.' && '.' !in name[k..] ==> BaseName(name) == name[k..]
  {
    AfterLastDotIs(name);
  }

  lemma {:induction false} AfterLastDotIs(s: string)
    ensures '.' !in s ==> AfterLastDot(s) == s
    ensures forall k {:trigger s[k..]} ::
              0 < k <= |s| && s[k - 1] == '.' && '.' !in s[k..] ==> AfterLastDot(s) == s[k..]
    decreases |s|
  {
    IndexOfIsFirst(s, '.');
    var i := IndexOf(s, '.');
    if i >= 0 {
      var rest := s[i + 1..];
      AfterLastDotIs(rest);
      forall k {:trigger s[k..]} | 0 < k <= |s| && s[k - 1] == '.' && '.' !in s[k..]
        ensures AfterLastDot(s) == s[k..]
      {
        if k > i + 1 {
          assert rest[k - i - 1..] == s[k..] && rest[k - i - 2] == '.';
        } else {
          assert s[k..] == rest;
        }
      }
    }
  }

  lemma {:induction false} IndexOfIsFirst(s: string, c: char)
    ensures IndexOf(s, c) < 0 <==> c !in s
    ensures IndexOf(s, c) >= 0 ==> c !in s[..IndexOf(s, c)]
  {
    if s != "" && s[0] != c {
      IndexOfIsFirst(s[1..], c);
      var i := IndexOf(s[1..], c);
      if i >= 0 {
        assert s[..i + 1] == [s[0]] + s[1..][..i];
      }
    }
  }

  lemma {:induction false} IndexOfAt(s: string, c: char, k: nat)
    requires k < |s| && s[k] == c && forall i :: 0 <= i < k ==> s[i] != c
    ensures IndexOf(s, c) == k
  {
    if k > 0 {
      IndexOfAt(s[1..], c, k - 1);
    }
  }

  /** A prefix in brackets stays, and a dot after it goes. */
  lemma BaseNameOfBrackets(inner: string, rest: string)
    requires ']' !in inner
    ensures BaseName("[" + inner + "]" + rest)
         == "[" + inner + "]" + BaseName(if rest != "" && rest[0] == '.' then rest[1..] else rest)
  {
    var open, name := "[" + inner, "[" + inner + "]" + rest;
    assert name == open + ("]" + rest) && name[|open|] == ']' && ']' !in open;
    IndexOfAt(name, ']', |open|);
    var j := IndexOf(name, ']');
    assert name[..j + 1] == "[" + inner + "]" && name[j + 1..] == rest;
  }

  /** A written name stands for the interface of exactly that name, or, if no interface has it, for the only one with
      its base name. */
  ghost predicate StandsFor(ds: seq<Decl>, ref: string, n: string)
  {
    && ref != "" && IsNamed(ds, n)
    && (n == ref || (!IsNamed(ds, ref) && BaseName(n) == BaseName(ref)
                     && forall m :: IsNamed(ds, m) && BaseName(m) == BaseName(ref) ==> m == n))
  }

  ghost predicate IsNamed(ds: seq<Decl>, n: string)
  {
    exists i :: 0 <= i < |ds| && ds[i].name == n
  }

  lemma NamedIff(t: Tables, ds: seq<Decl>, n: string)
    requires TablesOf(t, ds)
    ensures IsNamed(ds, n) <==> n in t.decls
  {
    if n in t.decls {
      var i :| 0 <= i < |t.order| && t.order[i] == n;
      assert ds[i].name == n;
    }
  }

  lemma {:induction false} WithBaseKeepsDistinct(names: seq<string>, base: string)
    requires forall i, j :: 0 <= i < j < |names| ==> names[i] != names[j]
    ensures forall i, j :: 0 <= i < j < |WithBase(names, base)| ==> WithBase(names, base)[i] != WithBase(names, base)[j]
  {
    if names != [] {
      WithBaseKeepsDistinct(names[1..], base);
      WithBaseMember(names[1..], base);
      assert names[0] !in names[1..];
    }
  }

  /** The lookup finds exactly the interface that a written name stands for. */
  lemma LookupIff(t: Tables, ds: seq<Decl>, ref: string, n: string)
    requires TablesOf(t, ds)
    ensures Lookup(t, ref) == Some(n) <==> StandsFor(ds, ref, n)
  {
    NamedIff(t, ds, ref);
    NamedIff(t, ds, n);
    if ref != "" && ref !in t.decls {
      var base := BaseName(ref);
      var cands := Candidates(t, base);
      assert cands == WithBase(t.order, base);
      WithBaseMember(t.order, base);
      WithBaseKeepsDistinct(t.order, base);
      if Lookup(t, ref) == Some(n) {
        assert cands[0] == n && cands[0] in cands;
        forall m | IsNamed(ds, m) && BaseName(m) == base
          ensures m == n
        {
          NamedIff(t, ds, m);
          assert m in cands;
        }
      }
      if StandsFor(ds, ref, n) {
        OnlyCandidate(t, ds, ref, n);
      }
    }
  }

  lemma OnlyCandidate(t: Tables, ds: seq<Decl>, ref: string, n: string)
    requires TablesOf(t, ds) && StandsFor(ds, ref, n) && ref !in t.decls
    ensures Candidates(t, BaseName(ref)) == [n]
  {
    var base := BaseName(ref);
    var cands := Candidates(t, base);
    assert cands == WithBase(t.order, base);
    WithBaseMember(t.order, base);
    WithBaseKeepsDistinct(t.order, base);
    NamedIff(t, ds, n);
    NamedIff(t, ds, ref);
    assert n in cands;
    forall i | 0 <= i < |cands|
      ensures cands[i] == n
    {
      assert cands[i] in cands;
      NamedIff(t, ds, cands[i]);
    }
    DistinctCount(cands);
    assert Elements(cands) == {n};
  }

  predicate Counts(stmt: Statement, seen: set<string>)
  {
    stmt.InterfaceStmt? && stmt.decl.name != "" && stmt.decl.name !in seen
  }

  lemma NextStatement(ds: seq<Decl>, program: seq<Statement>, i: nat, seen: set<string>)
    requires i < |program|
    ensures ds + Declared(program[i..], seen) ==
      if Counts(program[i], seen)
      then ds + [program[i].decl] + Declared(program[i + 1..], seen + {program[i].decl.name})
      else ds + Declared(program[i + 1..], seen)
  {
    assert program[i..][1..] == program[i + 1..];
  }

  function Added(t: Tables, d: Decl): Tables
  {
    var base := BaseName(d.name);
    Tables(t.decls[d.name := d], t.order + [d.name], t.byBase[base := Candidates(t, base) + [d.name]])
  }

  lemma ValidIsSound(t: Tables)
    requires ValidTables(t)
    ensures Sound(t)
  {
    forall ref | Lookup(t, ref).Some?
      ensures Lookup(t, ref).value in t.decls
    {
      LookupDeclared(t, ref);
    }
  }

  /** The first part of ResolveInterfaces: the tables, filled statement by statement. */
  method Collect(program: seq<Statement>) returns (t: Tables)
    ensures TablesOf(t, Declared(program, {}))
  {
    t := Tables(map[], [], map[]);
    ghost var ds: seq<Decl> := [];
    assert t.decls.Keys == {} && program[0..] == program;
    for i := 0 to |program|
      invariant TablesOf(t, ds)
      invariant ds + Declared(program[i..], t.decls.Keys) == Declared(program, {})
    {
      NextStatement(ds, program, i, t.decls.Keys);
      if !program[i].InterfaceStmt? || program[i].decl.name == "" {
        continue;
      }
      var id := program[i].decl;
      if id.name in t.decls {
        continue;
      }
      AddDecl(t, ds, id);
      t := Added(t, id);
      ds := ds + [id];
    }
    assert program[|program|..] == [];
  }

  lemma AddDecl(t: Tables, ds: seq<Decl>, d: Decl)
    requires TablesOf(t, ds) && d.name != "" && d.name !in t.decls
    ensures TablesOf(Added(t, d), ds + [d])
    ensures Added(t, d).decls.Keys == t.decls.Keys + {d.name}
  {
    var t' := Added(t, d);
    forall b
      ensures Candidates(t', b) == WithBase(t'.order, b)
    {
      WithBaseAppend(t.order, d.name, b);
    }
    forall i, j | 0 <= i < j < |t'.order|
      ensures t'.order[i] != t'.order[j]
    {
      assert t.order[i] in t.order;
    }
    forall i | 0 <= i < |ds + [d]|
      ensures t'.order[i] == (ds + [d])[i].name && (ds + [d])[i].name in t'.decls
          && t'.decls[(ds + [d])[i].name] == (ds + [d])[i]
    {
      assert i < |ds| ==> t.order[i] == ds[i].name && ds[i].name in t.decls;
    }
  }

  // ---------------------------------------------------------------------------------------
  // The parent graph

  /** The parents that the written names stand for, in order; unknown ones are left out. */
  function Looked(t: Tables, refs: seq<string>): seq<string>
  {
    if refs == [] then []
    else (if Lookup(t, refs[0]).Some? then [Lookup(t, refs[0]).value] else []) + Looked(t, refs[1..])
  }

  ghost predicate ParentOf(t: Tables, n: string, p: string)
  {
    n in t.decls && p in t.decls && p in Looked(t, t.decls[n].implements)
  }

  /** The edge at position i of a path. */
  ghost predicate Link(t: Tables, path: seq<string>, i: int)
  {
    0 <= i < |path| - 1 ==> ParentOf(t, path[i], path[i + 1])
  }

  ghost predicate Chain(t: Tables, path: seq<string>)
  {
    forall i :: Link(t, path, i)
  }

  ghost predicate ClosedWalk(t: Tables, path: seq<string>)
  {
    |path| > 1 && Chain(t, path) && path[0] == path[|path| - 1]
  }

  ghost predicate Cyclic(t: Tables)
  {
    exists path :: ClosedWalk(t, path)
  }

  lemma {:induction false} LookedStep(t: Tables, refs: seq<string>, i: nat)
    requires i < |refs|
    ensures Looked(t, refs[..i + 1])
        == Looked(t, refs[..i]) + if Lookup(t, refs[i]).Some? then [Lookup(t, refs[i]).value] else []
    decreases i
  {
    if i == 0 {
      assert refs[..1][1..] == [] && refs[..0] == [];
    } else {
      LookedStep(t, refs[1..], i - 1);
      assert refs[..i + 1][1..] == refs[1..][..i] && refs[..i][1..] == refs[1..][..i - 1];
    }
  }

  lemma {:induction false} LookedMember(t: Tables, refs: seq<string>)
    requires Sound(t)
    ensures forall p :: p in Looked(t, refs) <==> exists r :: r in refs && Lookup(t, r) == Some(p)
    ensures forall p :: p in Looked(t, refs) ==> p in t.decls
  {
    if refs != [] {
      LookedMember(t, refs[1..]);
      forall p | p in Looked(t, refs)
        ensures exists r :: r in refs && Lookup(t, r) == Some(p)
      {
        if p !in Looked(t, refs[1..]) {
          assert refs[0] in refs;
        } else {
          var r :| r in refs[1..] && Lookup(t, r) == Some(p);
          assert r in refs;
        }
      }
    }
  }

  // ---------------------------------------------------------------------------------------
  // Merging method lists

  predicate HasName(ms: seq<Method>, name: string)
  {
    exists i :: 0 <= i < |ms| && ms[i].name == name
  }

  /** The first method of each name, in order of arrival. */
  function FirstOfEach(ms: seq<Method>): (r: seq<Method>)
  {
    if ms == [] then []
    else
      var r := FirstOfEach(ms[..|ms| - 1]);
      if HasName(r, ms[|ms| - 1].name) then r else r + [ms[|ms| - 1]]
  }

  /** Two methods of the list have this name and different canonical signatures. */
  ghost predicate Clash(ms: seq<Method>, name: string)
  {
    exists a, b :: a in ms && b in ms && a.name == name && b.name == name
      && CanonicalMethodSig(a) != CanonicalMethodSig(b)
  }

  ghost predicate DistinctNames(ms: seq<Method>)
  {
    forall i, j :: 0 <= i < j < |ms| ==> ms[i].name != ms[j].name
  }

  lemma HasNameAppend(ms: seq<Method>, m: Method, n: string)
    ensures HasName(ms + [m], n) <==> HasName(ms, n) || m.name == n
  {
    var r := ms + [m];
    if HasName(ms, n) {
      var i :| 0 <= i < |ms| && ms[i].name == n;
      assert r[i].name == n;
    }
    assert r[|ms|] == m;
  }

  lemma {:induction false} FirstOfEachKeeps(ms: seq<Method>)
    ensures DistinctNames(FirstOfEach(ms))
    ensures forall m :: m in FirstOfEach(ms) ==> m in ms
    ensures forall n :: HasName(FirstOfEach(ms), n) <==> HasName(ms, n)
  {
    if ms != [] {
      var init, last := ms[..|ms| - 1], ms[|ms| - 1];
      FirstOfEachKeeps(init);
      assert ms == init + [last];
      forall n
        ensures HasName(FirstOfEach(ms), n) <==> HasName(ms, n)
      {
        HasNameAppend(init, last, n);
        HasNameAppend(FirstOfEach(init), last, n);
      }
    }
  }

  function OwnMethods(slots: seq<Option<Method>>): seq<Method>
  {
    if slots == [] then []
    else (if slots[0].Some? then [slots[0].value] else []) + OwnMethods(slots[1..])
  }
}

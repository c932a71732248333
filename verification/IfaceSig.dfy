/** Signatures of interface methods in a form that can be compared across interfaces: the name of
    a generic receiver is replaced, as a whole identifier, by a placeholder. */
module IfaceSig {
  import opened Sequences
  import opened Wrappers

  // ---------------------------------------------------------------------------------------
  // Identifiers in a type spelling

  predicate IsIdentStart(c: char)
  {
    c == '_' || 'a' <= c <= 'z' || 'A' <= c <= 'Z'
  }

  predicate IsIdentPart(c: char)
  {
    IsIdentStart(c) || '0' <= c <= '9' || c == '-'
  }

  predicate IsIdent(w: string)
  {
    w != [] && IsIdentStart(w[0]) && forall i :: 0 <= i < |w| ==> IsIdentPart(w[i])
  }

  datatype Token = Word(text: string) | Mark(c: char) {
    function Text(): string
    {
      match this
      case Word(text) => text
      case Mark(c) => [c]
    }
  }

  function Source(ts: seq<Token>): string
  {
    if ts == [] then [] else ts[0].Text() + Source(ts[1..])
  }

  /** ts is the one reading of its text in which every identifier is as long as possible. */
  ghost predicate Maximal(ts: seq<Token>)
  {
    ts != [] ==>
      && (ts[0].Word? ==> IsIdent(ts[0].text) && (Source(ts[1..]) == [] || !IsIdentPart(Source(ts[1..])[0])))
      && (ts[0].Mark? ==> !IsIdentStart(ts[0].c))
      && Maximal(ts[1..])
  }

  /** How many of the leading characters can stand inside an identifier. */
  function PartLength(s: string): (n: nat)
    ensures n <= |s|
    ensures forall i :: 0 <= i < n ==> IsIdentPart(s[i])
    ensures n < |s| ==> !IsIdentPart(s[n])
  {
    if s == [] || !IsIdentPart(s[0]) then 0 else 1 + PartLength(s[1..])
  }

  function Tokens(s: string): (ts: seq<Token>)
    decreases |s|
  {
    if s == [] then []
    else if IsIdentStart(s[0]) then [Word(s[..PartLength(s)])] + Tokens(s[PartLength(s)..])
    else [Mark(s[0])] + Tokens(s[1..])
  }

  lemma {:induction false} TokensMaximal(s: string)
    ensures Source(Tokens(s)) == s && Maximal(Tokens(s))
    decreases |s|
  {
    if s != [] {
      var n := if IsIdentStart(s[0]) then PartLength(s) else 1;
      TokensMaximal(s[n..]);
      TakeAndDrop(s, n);
      assert Tokens(s)[1..] == Tokens(s[n..]);
    }
  }

  lemma {:induction false} PartLengthOf(w: string, rest: string)
    requires forall i :: 0 <= i < |w| ==> IsIdentPart(w[i])
    requires rest == [] || !IsIdentPart(rest[0])
    ensures PartLength(w + rest) == |w|
  {
    if w == [] {
      assert w + rest == rest;
    } else {
      assert (w + rest)[1..] == w[1..] + rest;
      PartLengthOf(w[1..], rest);
    }
  }

  lemma {:induction false} MaximalUnique(ts: seq<Token>)
    requires Maximal(ts)
    ensures Tokens(Source(ts)) == ts
  {
    if ts != [] {
      MaximalUnique(ts[1..]);
      var s, rest := Source(ts), Source(ts[1..]);
      if ts[0].Word? {
        var n := PartLength(s);
        PartLengthOf(ts[0].text, rest);
        assert s[..n] == ts[0].text && s[n..] == rest;
      } else {
        assert s[1..] == rest;
      }
    }
  }

  // ---------------------------------------------------------------------------------------
  // Replacing an identifier

  function Swap(t: Token, word: string, repl: string): string
  {
    if t == Word(word) then repl else t.Text()
  }

  /** s with exactly the identifiers equal to word replaced. */
  function Replaced(ts: seq<Token>, word: string, repl: string): string
  {
    if ts == [] then [] else Swap(ts[0], word, repl) + Replaced(ts[1..], word, repl)
  }

  method ReplaceIdentWord(s: string, word: string, repl: string) returns (r: string)
    ensures r == Replaced(Tokens(s), word, repl)
  {
    if word == "" || s == "" {
      TokensMaximal(s);
      NothingToReplace(Tokens(s), word, repl);
      return s;
    }
    r := "";
    var i := 0;
    while i < |s|
      invariant 0 <= i <= |s|
      invariant r + Replaced(Tokens(s[i..]), word, repl) == Replaced(Tokens(s), word, repl)
    {
      if IsIdentStart(s[i]) {
        var j := WordEnd(s, i);
        NextWord(s, i, j, word, repl, r);
        if s[i..j] == word {
          r := r + repl;
        } else {
          r := r + s[i..j];
        }
        i := j;
        continue;
      }
      NextMark(s, i, word, repl, r);
      r := r + [s[i]];
      i := i + 1;
    }
    assert s[i..] == [];
  }

  /** The end of the identifier that starts at i. */
  method WordEnd(s: string, i: nat) returns (j: nat)
    requires i < |s| && IsIdentStart(s[i])
    ensures i < j <= |s| && j == i + PartLength(s[i..])
  {
    j := i + 1;
    assert s[i..][1..] == s[i + 1..];
    while j < |s| && IsIdentPart(s[j])
      invariant i < j <= |s|
      invariant PartLength(s[i..]) == j - i + PartLength(s[j..])
    {
      assert s[j..][1..] == s[j + 1..];
      j := j + 1;
    }
  }

  lemma NextWord(s: string, i: nat, j: nat, word: string, repl: string, before: string)
    requires i < |s| && IsIdentStart(s[i]) && j == i + PartLength(s[i..])
    ensures s[i..j] == word ==>
      before + Replaced(Tokens(s[i..]), word, repl) == before + repl + Replaced(Tokens(s[j..]), word, repl)
    ensures s[i..j] != word ==>
      before + Replaced(Tokens(s[i..]), word, repl) == before + s[i..j] + Replaced(Tokens(s[j..]), word, repl)
  {
    var rest := s[i..];
    var n := PartLength(rest);
    assert rest[..n] == s[i..i + n] && rest[n..] == s[i + n..];
    var first := Word(rest[..n]);
    assert ([first] + Tokens(rest[n..]))[1..] == Tokens(rest[n..]);
    Associative(before, Swap(first, word, repl), Replaced(Tokens(rest[n..]), word, repl));
  }

  lemma NextMark(s: string, i: nat, word: string, repl: string, before: string)
    requires i < |s| && !IsIdentStart(s[i])
    ensures before + Replaced(Tokens(s[i..]), word, repl) == before + [s[i]] + Replaced(Tokens(s[i + 1..]), word, repl)
  {
    var rest := s[i..];
    assert rest[1..] == s[i + 1..];
    assert ([Mark(s[i])] + Tokens(rest[1..]))[1..] == Tokens(rest[1..]);
    Associative(before, [s[i]], Replaced(Tokens(rest[1..]), word, repl));
  }

  lemma {:induction false} NothingToReplace(ts: seq<Token>, word: string, repl: string)
    requires Maximal(ts) && (word == "" || Word(word) !in ts)
    ensures Replaced(ts, word, repl) == Source(ts)
  {
    if ts != [] {
      NothingToReplace(ts[1..], word, repl);
    }
  }

  /** The tokens once word is replaced by the identifier u: the boundaries stay where they are. */
  function Renamed(ts: seq<Token>, word: string, u: string): (r: seq<Token>)
    ensures |r| == |ts|
  {
    if ts == [] then []
    else [if ts[0] == Word(word) then Word(u) else ts[0]] + Renamed(ts[1..], word, u)
  }

  lemma {:induction false} RenamedMaximal(ts: seq<Token>, word: string, u: string)
    requires Maximal(ts) && IsIdent(u)
    ensures Maximal(Renamed(ts, word, u))
    ensures Source(Renamed(ts, word, u)) == Replaced(ts, word, u)
    ensures (Source(ts) == []) == (Source(Renamed(ts, word, u)) == [])
    ensures Source(ts) != [] && !IsIdentPart(Source(ts)[0]) ==> !IsIdentPart(Source(Renamed(ts, word, u))[0])
  {
    if ts != [] {
      RenamedMaximal(ts[1..], word, u);
      var r := Renamed(ts, word, u);
      assert r[1..] == Renamed(ts[1..], word, u);
    }
  }

  lemma {:induction false} RenamedTwice(ts: seq<Token>, word: string, u: string, repl: string)
    requires Maximal(ts) && Word(u) !in ts
    ensures Replaced(Renamed(ts, word, u), u, repl) == Replaced(ts, word, repl)
  {
    if ts != [] {
      RenamedTwice(ts[1..], word, u, repl);
      assert Renamed(ts, word, u)[1..] == Renamed(ts[1..], word, u);
      assert ts[0] in ts;
    }
  }

  /** Replacing t by a fresh identifier u, and then u by anything, is replacing t by it at once. */
  lemma ReplaceComposes(s: string, t: string, u: string, repl: string)
    requires IsIdent(u) && Word(u) !in Tokens(s)
    ensures Replaced(Tokens(Replaced(Tokens(s), t, u)), u, repl) == Replaced(Tokens(s), t, repl)
  {
    var ts := Tokens(s);
    TokensMaximal(s);
    RenamedMaximal(ts, t, u);
    MaximalUnique(Renamed(ts, t, u));
    RenamedTwice(ts, t, u, repl);
  }

  // ---------------------------------------------------------------------------------------
  // Canonical signatures

  /** A method of an interface; a parameter without a type is None. */
  datatype Method = Method(
    name: string, isGenericReceiver: bool, receiver: string,
    parameters: seq<Option<string>>, results: seq<Option<string>>)

  const RECEIVER := "$recv"

  function Normal(p: Option<string>, recv: string): string
  {
    match p
    case None => ""
    case Some(t) => if recv == "" then t else Replaced(Tokens(t), recv, RECEIVER)
  }

  function NormalAll(ps: seq<Option<string>>, recv: string): (r: seq<string>)
    ensures |r| == |ps|
  {
    if ps == [] then [] else [Normal(ps[0], recv)] + NormalAll(ps[1..], recv)
  }

  function JoinComma(parts: seq<string>): string
  {
    if parts == [] then ""
    else if |parts| == 1 then parts[0]
    else parts[0] + "," + JoinComma(parts[1..])
  }

  function CanonicalMethodSig(m: Method): string
  {
    var recv := if m.isGenericReceiver then m.receiver else "";
    m.name + "|" + JoinComma(NormalAll(m.parameters, recv)) + "|" + JoinComma(NormalAll(m.results, recv))
  }

  function RenameType(p: Option<string>, t: string, u: string): Option<string>
  {
    match p
    case None => None
    case Some(s) => Some(Replaced(Tokens(s), t, u))
  }

  function RenameTypes(ps: seq<Option<string>>, t: string, u: string): seq<Option<string>>
  {
    if ps == [] then [] else [RenameType(ps[0], t, u)] + RenameTypes(ps[1..], t, u)
  }

  /** The same method written with another name for its receiver. */
  function RenameReceiver(m: Method, u: string): Method
  {
    m.(receiver := u, parameters := RenameTypes(m.parameters, m.receiver, u),
       results := RenameTypes(m.results, m.receiver, u))
  }

  ghost predicate Fresh(u: string, ps: seq<Option<string>>)
  {
    forall i :: 0 <= i < |ps| && ps[i].Some? ==> Word(u) !in Tokens(ps[i].value)
  }

  lemma {:induction false} NormalAllRenamed(ps: seq<Option<string>>, t: string, u: string)
    requires t != "" && IsIdent(u) && Fresh(u, ps)
    ensures NormalAll(RenameTypes(ps, t, u), u) == NormalAll(ps, t)
  {
    if ps != [] {
      NormalAllRenamed(ps[1..], t, u);
      assert RenameTypes(ps, t, u)[1..] == RenameTypes(ps[1..], t, u);
      if ps[0].Some? {
        ReplaceComposes(ps[0].value, t, u, RECEIVER);
      }
    }
  }

  /** `t.gt(b t)` and `u.gt(b u)` are the same method: the canonical signature does not depend on
      the name of a generic receiver. */
  lemma SignatureIgnoresReceiverName(m: Method, u: string)
    requires m.isGenericReceiver && m.receiver != ""
    requires IsIdent(u) && Fresh(u, m.parameters) && Fresh(u, m.results)
    ensures CanonicalMethodSig(RenameReceiver(m, u)) == CanonicalMethodSig(m)
  {
    NormalAllRenamed(m.parameters, m.receiver, u);
    NormalAllRenamed(m.results, m.receiver, u);
  }
}

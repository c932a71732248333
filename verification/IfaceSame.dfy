/** When two interface methods are the same, and when the text that stands for their signature says so. */
module IfaceSame {
  import opened Wrappers
  import opened Sequences
  import opened IfaceSig

  // ---------------------------------------------------------------------------------------
  // What is replaced in a type text

  predicate IsLetter(c: char) {
    'a' <= c <= 'z' || 'A' <= c <= 'Z' || c == '_'
  }

  predicate IsNameChar(c: char) {
    IsLetter(c) || '0' <= c <= '9' || c == '-'
  }

  /** A letter or an underscore, then letters, digits, underscores and dashes. */
  predicate IsName(s: string) {
    s != "" && IsLetter(s[0]) && forall i :: 0 <= i < |s| ==> IsNameChar(s[i])
  }

  lemma {:induction false} ReplacedOfConcat(a: seq<Token>, b: seq<Token>, word: string, repl: string)
    ensures Replaced(a + b, word, repl) == Replaced(a, word, repl) + Replaced(b, word, repl)
  {
    if a == [] {
      assert a + b == b;
    } else {
      ReplacedOfConcat(a[1..], b, word, repl);
      assert (a + b)[1..] == a[1..] + b;
      Associative(Swap(a[0], word, repl), Replaced(a[1..], word, repl), Replaced(b, word, repl));
    }
  }

  /** A name is replaced as a whole or not at all. */
  lemma NameIsWhole(s: string, word: string, repl: string)
    requires IsName(s)
    ensures Replaced(Tokens(s), word, repl) == if s == word then repl else s
  {
    PartLengthOf(s, "");
    assert s + "" == s && s[..|s|] == s && s[|s|..] == "";
    assert Tokens(s) == [Word(s)] + [];
    assert Replaced([Word(s)][1..], word, repl) == "";
  }

  /** Where no name can go on, the text falls into two that are replaced apart. */
  lemma {:induction false} BoundaryIsKept(a: string, c: char, b: string, word: string, repl: string)
    requires !IsNameChar(c)
    ensures Replaced(Tokens(a + [c] + b), word, repl)
         == Replaced(Tokens(a), word, repl) + [c] + Replaced(Tokens(b), word, repl)
  {
    TokensAtBoundary(a, c, b);
    ReplacedOfConcat(Tokens(a), [Mark(c)] + Tokens(b), word, repl);
    assert ([Mark(c)] + Tokens(b))[1..] == Tokens(b);
    Associative(Replaced(Tokens(a), word, repl), [c], Replaced(Tokens(b), word, repl));
  }

  lemma {:induction false} TokensAtBoundary(a: string, c: char, b: string)
    requires !IsNameChar(c)
    ensures Tokens(a + [c] + b) == Tokens(a) + ([Mark(c)] + Tokens(b))
    decreases |a|
  {
    var s := a + [c] + b;
    if a == "" {
      assert s == [c] + b && s[1..] == b;
    } else {
      var n := if IsIdentStart(a[0]) then PartLength(a) else 1;
      PartLengthAtBoundary(a, c, b);
      assert s[0] == a[0] && s[..n] == a[..n] && s[n..] == a[n..] + [c] + b;
      TokensAtBoundary(a[n..], c, b);
      var first := if IsIdentStart(a[0]) then Word(a[..n]) else Mark(a[0]);
      assert Tokens(s) == [first] + Tokens(s[n..]) && Tokens(a) == [first] + Tokens(a[n..]);
      Associative([first], Tokens(a[n..]), [Mark(c)] + Tokens(b));
    }
  }

  lemma {:induction false} PartLengthAtBoundary(a: string, c: char, b: string)
    requires !IsNameChar(c)
    ensures PartLength(a + [c] + b) == PartLength(a)
  {
    var s := a + [c] + b;
    if a != "" && IsIdentPart(a[0]) {
      assert s[1..] == a[1..] + [c] + b;
      PartLengthAtBoundary(a[1..], c, b);
    }
  }

  /** A character that begins no name stays, and what follows it is replaced on its own. */
  lemma NoNameBegins(c: char, b: string, word: string, repl: string)
    requires !IsLetter(c)
    ensures Replaced(Tokens([c] + b), word, repl) == [c] + Replaced(Tokens(b), word, repl)
  {
    assert ([c] + b)[1..] == b;
    assert ([Mark(c)] + Tokens(b))[1..] == Tokens(b);
  }

  // ---------------------------------------------------------------------------------------
  // The same method

  /** A parameter without a type has the empty text. */
  function TextOf(p: Option<string>): string {
    if p.Some? then p.value else ""
  }

  /** The two tokens are the same, where each side's own receiver stands for the other's. */
  predicate SameToken(a: Token, r: string, b: Token, s: string) {
    (a == Word(r) && b == Word(s)) || (a == b && a != Word(r) && b != Word(s))
  }

  predicate SameTokens(ts: seq<Token>, r: string, us: seq<Token>, s: string) {
    |ts| == |us| && forall k :: 0 <= k < |ts| ==> SameToken(ts[k], r, us[k], s)
  }

  /** The two types are the same, read up to the receivers r and s. */
  predicate SameType(p: Option<string>, r: string, q: Option<string>, s: string) {
    SameTokens(Tokens(TextOf(p)), r, Tokens(TextOf(q)), s)
  }

  /** No parameters, or a single one without a type. */
  predicate IsBlank(ps: seq<Option<string>>) {
    ps == [] || (|ps| == 1 && TextOf(ps[0]) == "")
  }

  predicate SameTypes(ps: seq<Option<string>>, r: string, qs: seq<Option<string>>, s: string) {
    || (|ps| == |qs| && forall i :: 0 <= i < |ps| ==> SameType(ps[i], r, qs[i], s))
    || (IsBlank(ps) && IsBlank(qs))
  }

  /** The receiver that counts: the generic one. */
  function ReceiverOf(m: Method): string {
    if m.isGenericReceiver then m.receiver else ""
  }

  /** Same name, same parameter types and same result types, each type read up to the method's own receiver. */
  predicate SameMethod(a: Method, b: Method) {
    && a.name == b.name
    && SameTypes(a.parameters, ReceiverOf(a), b.parameters, ReceiverOf(b))
    && SameTypes(a.results, ReceiverOf(a), b.results, ReceiverOf(b))
  }

  // ---------------------------------------------------------------------------------------
  // One type

  /** The text does not itself contain the placeholder of a receiver. */
  predicate IsUnmarked(ts: seq<Token>) {
    forall k :: 0 <= k < |ts| - 1 ==> !(ts[k] == Mark('$') && ts[k + 1] == Word("recv"))
  }

  /** The tokens with the placeholder, which is two tokens, for the receiver. */
  function Expanded(ts: seq<Token>, r: string): seq<Token> {
    if ts == [] then []
    else (if ts[0] == Word(r) then [Mark('$'), Word("recv")] else [ts[0]]) + Expanded(ts[1..], r)
  }

  lemma PlaceholderText(rest: seq<Token>)
    ensures Source([Mark('$'), Word("recv")] + rest) == "$recv" + Source(rest)
    ensures Maximal(rest) && (Source(rest) == [] || !IsIdentPart(Source(rest)[0]))
        ==> Maximal([Mark('$'), Word("recv")] + rest)
  {
    var all, tail := [Mark('$'), Word("recv")] + rest, [Word("recv")] + rest;
    assert all[1..] == tail && tail[1..] == rest;
    assert Source(tail) == "recv" + Source(rest);
    assert "$" + ("recv" + Source(rest)) == "$recv" + Source(rest);
  }

  lemma {:induction false} ExpandedIs(ts: seq<Token>, r: string)
    requires Maximal(ts)
    ensures Maximal(Expanded(ts, r)) && Source(Expanded(ts, r)) == Replaced(ts, r, "$recv")
    ensures Source(ts) == [] ==> Source(Expanded(ts, r)) == []
    ensures Source(ts) != [] && !IsIdentPart(Source(ts)[0])
        ==> Source(Expanded(ts, r)) != [] && !IsIdentPart(Source(Expanded(ts, r))[0])
  {
    if ts != [] {
      ExpandedIs(ts[1..], r);
      if ts[0] == Word(r) {
        PlaceholderText(Expanded(ts[1..], r));
      } else {
        assert ([ts[0]] + Expanded(ts[1..], r))[1..] == Expanded(ts[1..], r);
      }
    }
  }

  lemma ExpandedOfHead(ts: seq<Token>, r: string)
    requires ts != []
    ensures Expanded(ts, r) != []
    ensures ts[0] == Word(r) ==> |Expanded(ts, r)| > 1 && Expanded(ts, r)[..2] == [Mark('$'), Word("recv")]
    ensures ts[0] == Word(r) ==> Expanded(ts, r)[2..] == Expanded(ts[1..], r)
    ensures ts[0] != Word(r) ==> Expanded(ts, r)[0] == ts[0] && Expanded(ts, r)[1..] == Expanded(ts[1..], r)
  {
  }

  lemma UnmarkedTail(ts: seq<Token>)
    requires ts != [] && IsUnmarked(ts)
    ensures IsUnmarked(ts[1..])
  {
  }

  /** A token of one side is a receiver and the other side's is not: then the expansions differ. */
  lemma ReceiverStandsAlone(ts: seq<Token>, r: string, us: seq<Token>, s: string)
    requires ts != [] && us != [] && ts[0] == Word(r) && us[0] != Word(s) && IsUnmarked(us)
    ensures Expanded(ts, r) != Expanded(us, s)
  {
    ExpandedOfHead(ts, r);
    ExpandedOfHead(us, s);
    if |us| > 1 {
      ExpandedOfHead(us[1..], s);
    }
  }

  lemma {:induction false} ExpandedDecodes(ts: seq<Token>, r: string, us: seq<Token>, s: string)
    requires IsUnmarked(ts) && IsUnmarked(us) && Expanded(ts, r) == Expanded(us, s)
    ensures SameTokens(ts, r, us, s)
  {
    if ts != [] && us != [] {
      ExpandedOfHead(ts, r);
      ExpandedOfHead(us, s);
      UnmarkedTail(ts);
      UnmarkedTail(us);
      if ts[0] == Word(r) && us[0] != Word(s) {
        ReceiverStandsAlone(ts, r, us, s);
      } else if ts[0] != Word(r) && us[0] == Word(s) {
        ReceiverStandsAlone(us, s, ts, r);
      } else {
        ExpandedDecodes(ts[1..], r, us[1..], s);
        assert forall k :: 0 < k < |ts| ==> ts[k] == ts[1..][k - 1] && us[k] == us[1..][k - 1];
      }
    } else if ts != [] {
      ExpandedOfHead(ts, r);
    } else if us != [] {
      ExpandedOfHead(us, s);
    }
  }

  lemma {:induction false} SameExpand(ts: seq<Token>, r: string, us: seq<Token>, s: string)
    requires SameTokens(ts, r, us, s)
    ensures Expanded(ts, r) == Expanded(us, s)
  {
    if ts != [] {
      assert SameToken(ts[0], r, us[0], s);
      assert forall k :: 0 <= k < |ts| - 1 ==> ts[1..][k] == ts[k + 1] && us[1..][k] == us[k + 1];
      SameExpand(ts[1..], r, us[1..], s);
    }
  }

  lemma NormalIs(p: Option<string>, r: string)
    ensures Normal(p, r) == Source(Expanded(Tokens(TextOf(p)), r))
    ensures Maximal(Expanded(Tokens(TextOf(p)), r))
  {
    var ts := Tokens(TextOf(p));
    TokensMaximal(TextOf(p));
    ExpandedIs(ts, r);
    if r == "" {
      NothingToReplace(ts, r, "$recv");
    }
  }

  lemma SameTypeIsSameText(p: Option<string>, r: string, q: Option<string>, s: string)
    requires SameType(p, r, q, s)
    ensures Normal(p, r) == Normal(q, s)
  {
    NormalIs(p, r);
    NormalIs(q, s);
    SameExpand(Tokens(TextOf(p)), r, Tokens(TextOf(q)), s);
  }

  /** The texts with the placeholder agree iff the types are the same, unless one has a placeholder of its own. */
  lemma TypeIff(p: Option<string>, r: string, q: Option<string>, s: string)
    requires IsUnmarked(Tokens(TextOf(p))) && IsUnmarked(Tokens(TextOf(q)))
    ensures Normal(p, r) == Normal(q, s) <==> SameType(p, r, q, s)
  {
    if SameType(p, r, q, s) {
      SameTypeIsSameText(p, r, q, s);
    }
    if Normal(p, r) == Normal(q, s) {
      NormalIs(p, r);
      NormalIs(q, s);
      MaximalUnique(Expanded(Tokens(TextOf(p)), r));
      MaximalUnique(Expanded(Tokens(TextOf(q)), s));
      ExpandedDecodes(Tokens(TextOf(p)), r, Tokens(TextOf(q)), s);
    }
  }

  /** A type that is written as the placeholder is taken for any receiver. */
  lemma PlaceholderIsTakenForReceiver(u: string)
    requires IsIdent(u)
    ensures Normal(Some("$recv"), "") == Normal(Some(u), u) && !SameType(Some("$recv"), "", Some(u), u)
  {
    PartLengthOf(u, "");
    assert u + "" == u && u[..|u|] == u && u[|u|..] == "";
    assert Tokens(u) == [Word(u)];
    assert Replaced([Word(u)][1..], u, RECEIVER) == "";
    assert "$recv"[0] == '$';
    assert Tokens("$recv")[0] == Mark('$');
  }

  // ---------------------------------------------------------------------------------------
  // Joined texts

  predicate IsSeparator(c: char) {
    c == ',' || c == '|'
  }

  /** How many brackets are open after c. */
  function After(depth: int, c: char): int {
    if c == '(' || c == '[' then depth + 1 else if c == ')' || c == ']' then depth - 1 else depth
  }

  /** The brackets that are open here are closed at the end. */
  predicate Closes(s: string, depth: int) {
    if s == "" then depth == 0 else Closes(s[1..], After(depth, s[0]))
  }

  /** And no comma and no bar stands outside of all brackets. */
  predicate IsTidyFrom(s: string, depth: int) {
    if s == "" then depth == 0
    else !(depth == 0 && IsSeparator(s[0])) && IsTidyFrom(s[1..], After(depth, s[0]))
  }

  predicate IsTidy(s: string) {
    IsTidyFrom(s, 0)
  }

  predicate AllTidy(texts: seq<string>) {
    forall i :: 0 <= i < |texts| ==> IsTidy(texts[i])
  }

  /** Before a separator, a tidy text can end in one place only. */
  lemma {:induction false} TidyPrefix(x: string, c: char, xs: string, y: string, d: char, ys: string, depth: int)
    requires IsTidyFrom(x, depth) && IsTidyFrom(y, depth) && IsSeparator(c) && IsSeparator(d)
    requires x + ([c] + xs) == y + ([d] + ys)
    ensures x == y && c == d && xs == ys
    decreases |x|
  {
    var s, t := x + ([c] + xs), y + ([d] + ys);
    assert s[0] == if x == "" then c else x[0];
    assert t[0] == if y == "" then d else y[0];
    if x == "" {
      assert s[1..] == xs && t[1..] == ys;
    } else if y != "" {
      assert s[1..] == x[1..] + ([c] + xs) && t[1..] == y[1..] + ([d] + ys);
      TidyPrefix(x[1..], c, xs, y[1..], d, ys, After(depth, x[0]));
      HeadAndTail(x);
      HeadAndTail(y);
    }
  }

  /** The texts, of which there is at least one: none at all are joined as a single empty one is. */
  function Filled(texts: seq<string>): (r: seq<string>)
    ensures r != []
  {
    if texts == [] then [""] else texts
  }

  lemma JoinOfHead(xs: seq<string>, rest: string)
    requires |xs| > 1
    ensures JoinComma(xs) + ("|" + rest) == xs[0] + ("," + (JoinComma(xs[1..]) + ("|" + rest)))
  {
    Associative(xs[0] + ",", JoinComma(xs[1..]), "|" + rest);
    Associative(xs[0], ",", JoinComma(xs[1..]) + ("|" + rest));
  }

  /** Tidy texts that are joined with commas before a bar can be read off again. */
  lemma {:induction false} JoinedDecodes(xs: seq<string>, rest: string, ys: seq<string>, more: string)
    requires xs != [] && ys != [] && AllTidy(xs) && AllTidy(ys)
    requires JoinComma(xs) + ("|" + rest) == JoinComma(ys) + ("|" + more)
    ensures xs == ys && rest == more
  {
    var c := if |xs| > 1 then ',' else '|';
    var d := if |ys| > 1 then ',' else '|';
    var after := if |xs| > 1 then JoinComma(xs[1..]) + ("|" + rest) else rest;
    var behind := if |ys| > 1 then JoinComma(ys[1..]) + ("|" + more) else more;
    if |xs| > 1 {
      JoinOfHead(xs, rest);
    }
    if |ys| > 1 {
      JoinOfHead(ys, more);
    }
    TidyPrefix(xs[0], c, after, ys[0], d, behind, 0);
    if |xs| > 1 {
      JoinedDecodes(xs[1..], rest, ys[1..], more);
      HeadAndTail(xs);
      HeadAndTail(ys);
    }
  }

  lemma JoinOfFilled(xs: seq<string>)
    ensures JoinComma(Filled(xs)) == JoinComma(xs)
  {
  }

  /** The texts of the types, with the placeholder for the receiver. */
  function NormalTexts(m: Method, ps: seq<Option<string>>): seq<string> {
    NormalAll(ps, ReceiverOf(m))
  }

  lemma {:induction false} NormalAllAt(ps: seq<Option<string>>, recv: string, i: nat)
    requires i < |ps|
    ensures NormalAll(ps, recv)[i] == Normal(ps[i], recv)
  {
    if i > 0 {
      NormalAllAt(ps[1..], recv, i - 1);
    }
  }

  lemma SignatureText(m: Method)
    ensures CanonicalMethodSig(m)
         == m.name + ("|" + (JoinComma(NormalTexts(m, m.parameters)) + ("|" + JoinComma(NormalTexts(m, m.results)))))
  {
    var p, r := JoinComma(NormalTexts(m, m.parameters)), JoinComma(NormalTexts(m, m.results));
    Associative(m.name, "|", p);
    Associative(m.name, "|" + p, "|" + r);
    Associative(m.name + ("|" + p), "|", r);
    Associative("|", p, "|" + r);
  }

  /** A signature of tidy texts can be read off again: only no type and one empty type look alike. */
  lemma SignatureDecodes(a: Method, b: Method)
    requires IsTidy(a.name) && AllTidy(NormalTexts(a, a.parameters)) && AllTidy(NormalTexts(a, a.results))
    requires IsTidy(b.name) && AllTidy(NormalTexts(b, b.parameters)) && AllTidy(NormalTexts(b, b.results))
    requires CanonicalMethodSig(a) == CanonicalMethodSig(b)
    ensures a.name == b.name
    ensures Filled(NormalTexts(a, a.parameters)) == Filled(NormalTexts(b, b.parameters))
    ensures Filled(NormalTexts(a, a.results)) == Filled(NormalTexts(b, b.results))
  {
    var p, q := NormalTexts(a, a.parameters), NormalTexts(b, b.parameters);
    var r, s := NormalTexts(a, a.results), NormalTexts(b, b.results);
    SignatureText(a);
    SignatureText(b);
    TidyPrefix(a.name, '|', JoinComma(p) + ("|" + JoinComma(r)), b.name, '|', JoinComma(q) + ("|" + JoinComma(s)), 0);
    JoinOfFilled(p);
    JoinOfFilled(q);
    JoinedDecodes(Filled(p), JoinComma(r), Filled(q), JoinComma(s));
    JoinOfFilled(r);
    JoinOfFilled(s);
    JoinedDecodes(Filled(r), "", Filled(s), "");
  }

  lemma {:induction false} WordKeepsDepth(w: string, s: string, depth: int)
    requires forall i :: 0 <= i < |w| ==> IsNameChar(w[i])
    ensures IsTidyFrom(w + s, depth) == IsTidyFrom(s, depth) && Closes(w + s, depth) == Closes(s, depth)
  {
    if w == "" {
      assert w + s == s;
    } else {
      assert (w + s)[0] == w[0] && (w + s)[1..] == w[1..] + s;
      WordKeepsDepth(w[1..], s, depth);
    }
  }

  lemma PlaceholderKeepsDepth(s: string, depth: int)
    ensures IsTidyFrom("$recv" + s, depth) == IsTidyFrom(s, depth)
    ensures Closes("$recv" + s, depth) == Closes(s, depth)
  {
    WordKeepsDepth("recv", s, depth);
    assert ("$recv" + s)[0] == '$' && ("$recv" + s)[1..] == "recv" + s;
  }

  /** The placeholder changes neither brackets nor separators. */
  lemma {:induction false} ReplacedKeepsDepth(ts: seq<Token>, r: string, depth: int)
    requires Maximal(ts)
    ensures IsTidyFrom(Replaced(ts, r, "$recv"), depth) == IsTidyFrom(Source(ts), depth)
    ensures Closes(Replaced(ts, r, "$recv"), depth) == Closes(Source(ts), depth)
  {
    if ts != [] {
      var rest, was := Replaced(ts[1..], r, "$recv"), Source(ts[1..]);
      if ts[0].Word? {
        ReplacedKeepsDepth(ts[1..], r, depth);
        WordKeepsDepth(ts[0].text, was, depth);
        WordKeepsDepth(ts[0].text, rest, depth);
        PlaceholderKeepsDepth(rest, depth);
      } else {
        ReplacedKeepsDepth(ts[1..], r, After(depth, ts[0].c));
        assert ([ts[0].c] + was)[1..] == was && ([ts[0].c] + rest)[1..] == rest;
      }
    }
  }

  lemma NormalKeepsDepth(p: Option<string>, r: string)
    ensures IsTidy(Normal(p, r)) == IsTidy(TextOf(p)) && Closes(Normal(p, r), 0) == Closes(TextOf(p), 0)
  {
    TokensMaximal(TextOf(p));
    if r != "" && p.Some? {
      ReplacedKeepsDepth(Tokens(TextOf(p)), r, 0);
    }
  }

  // ---------------------------------------------------------------------------------------
  // Equal signatures

  predicate AreTidyTypes(ps: seq<Option<string>>) {
    forall i :: 0 <= i < |ps| ==> IsTidy(TextOf(ps[i])) && IsUnmarked(Tokens(TextOf(ps[i])))
  }

  /** In the name and in every type text, brackets are closed, commas and bars stand inside brackets only, and there is
      no placeholder. */
  predicate IsTidyMethod(m: Method) {
    IsTidy(m.name) && AreTidyTypes(m.parameters) && AreTidyTypes(m.results)
  }

  lemma TidyTexts(ps: seq<Option<string>>, r: string)
    requires AreTidyTypes(ps)
    ensures AllTidy(NormalAll(ps, r))
  {
    forall i | 0 <= i < |ps|
      ensures IsTidy(NormalAll(ps, r)[i])
    {
      NormalAllAt(ps, r, i);
      NormalKeepsDepth(ps[i], r);
    }
  }

  lemma {:induction false} SameTypesJoin(ps: seq<Option<string>>, r: string, qs: seq<Option<string>>, s: string)
    requires SameTypes(ps, r, qs, s)
    ensures JoinComma(NormalAll(ps, r)) == JoinComma(NormalAll(qs, s))
  {
    if |ps| == |qs| && forall i :: 0 <= i < |ps| ==> SameType(ps[i], r, qs[i], s) {
      forall i | 0 <= i < |ps|
        ensures NormalAll(ps, r)[i] == NormalAll(qs, s)[i]
      {
        NormalAllAt(ps, r, i);
        NormalAllAt(qs, s, i);
        SameTypeIsSameText(ps[i], r, qs[i], s);
      }
      assert NormalAll(ps, r) == NormalAll(qs, s);
    } else {
      BlankJoins(ps, r);
      BlankJoins(qs, s);
    }
  }

  lemma BlankJoins(ps: seq<Option<string>>, r: string)
    requires IsBlank(ps)
    ensures JoinComma(NormalAll(ps, r)) == ""
  {
    if ps != [] {
      SameTypeIsSameText(ps[0], r, None, r);
      assert NormalAll(ps, r) == [Normal(ps[0], r)] + NormalAll(ps[1..], r);
    }
  }

  lemma EmptyTextIsBlank(q: Option<string>, s: string)
    requires Normal(q, s) == "" && IsUnmarked(Tokens(TextOf(q)))
    ensures TextOf(q) == ""
  {
    TypeIff(None, s, q, s);
    TokensMaximal(TextOf(q));
  }

  /** Types whose texts agree are the same. */
  lemma TextsDecode(ps: seq<Option<string>>, r: string, qs: seq<Option<string>>, s: string)
    requires AreTidyTypes(ps) && AreTidyTypes(qs) && Filled(NormalAll(ps, r)) == Filled(NormalAll(qs, s))
    ensures SameTypes(ps, r, qs, s)
  {
    if ps != [] && qs != [] {
      forall i | 0 <= i < |ps|
        ensures SameType(ps[i], r, qs[i], s)
      {
        NormalAllAt(ps, r, i);
        NormalAllAt(qs, s, i);
        TypeIff(ps[i], r, qs[i], s);
      }
    } else if qs != [] {
      NormalAllAt(qs, s, 0);
      EmptyTextIsBlank(qs[0], s);
    } else if ps != [] {
      NormalAllAt(ps, r, 0);
      EmptyTextIsBlank(ps[0], r);
    }
  }

  /** The same method always has the same signature. */
  lemma SameMethodSignature(a: Method, b: Method)
    requires SameMethod(a, b)
    ensures CanonicalMethodSig(a) == CanonicalMethodSig(b)
  {
    SameTypesJoin(a.parameters, ReceiverOf(a), b.parameters, ReceiverOf(b));
    SameTypesJoin(a.results, ReceiverOf(a), b.results, ReceiverOf(b));
    SignatureText(a);
    SignatureText(b);
  }

  /** Two tidy methods have equal signatures iff they are the same: the same name and the same types of parameters and
      results, each read up to its own generic receiver. */
  lemma SignatureIff(a: Method, b: Method)
    requires IsTidyMethod(a) && IsTidyMethod(b)
    ensures CanonicalMethodSig(a) == CanonicalMethodSig(b) <==> SameMethod(a, b)
  {
    if SameMethod(a, b) {
      SameMethodSignature(a, b);
    }
    if CanonicalMethodSig(a) == CanonicalMethodSig(b) {
      TidyTexts(a.parameters, ReceiverOf(a));
      TidyTexts(a.results, ReceiverOf(a));
      TidyTexts(b.parameters, ReceiverOf(b));
      TidyTexts(b.results, ReceiverOf(b));
      SignatureDecodes(a, b);
      TextsDecode(a.parameters, ReceiverOf(a), b.parameters, ReceiverOf(b));
      TextsDecode(a.results, ReceiverOf(a), b.results, ReceiverOf(b));
    }
  }

  // ---------------------------------------------------------------------------------------
  // The condition is exact

  /** The method called n that has one parameter, of this type, and no result. */
  function OneParameter(n: string, t: string): Method {
    Method(n, false, "", [Some(t)], [])
  }

  predicate ArePlainTypes(ps: seq<Option<string>>) {
    forall i :: 0 <= i < |ps| ==> Closes(TextOf(ps[i]), 0) && IsUnmarked(Tokens(TextOf(ps[i])))
  }

  /** A name without a bar, and types in which brackets are closed and no placeholder stands. */
  predicate IsPlainMethod(m: Method) {
    '|' !in m.name && ArePlainTypes(m.parameters) && ArePlainTypes(m.results)
  }

  /** Whoever has the signature of the method with t for its only parameter is that method. */
  ghost predicate NothingIsLost(n: string, t: string) {
    forall b :: IsPlainMethod(b) && CanonicalMethodSig(b) == CanonicalMethodSig(OneParameter(n, t)) ==>
      SameMethod(OneParameter(n, t), b)
  }

  lemma {:induction false} OutsideIsUntidy(u: string, c: char, v: string, depth: int)
    requires Closes(u, depth) && IsSeparator(c)
    ensures !IsTidyFrom(u + ([c] + v), depth)
  {
    var s := u + ([c] + v);
    if u == "" {
      assert s[0] == c;
    } else {
      assert s[0] == u[0] && s[1..] == u[1..] + ([c] + v);
      OutsideIsUntidy(u[1..], c, v, After(depth, u[0]));
    }
  }

  /** A text that closes its brackets and is not tidy has a separator outside of them. */
  lemma {:induction false} UntidySplits(t: string, depth: int) returns (u: string, c: char, v: string)
    requires Closes(t, depth) && !IsTidyFrom(t, depth)
    ensures t == u + ([c] + v) && IsSeparator(c) && Closes(u, depth) && Closes(v, 0)
  {
    if depth == 0 && IsSeparator(t[0]) {
      u, c, v := "", t[0], t[1..];
    } else {
      u, c, v := UntidySplits(t[1..], After(depth, t[0]));
      var tail := u;
      u := [t[0]] + tail;
      assert u[1..] == tail;
      Associative([t[0]], tail, [c] + v);
      HeadAndTail(t);
    }
  }

  lemma PartsAreUnmarked(u: string, c: char, v: string)
    requires IsSeparator(c) && IsUnmarked(Tokens(u + ([c] + v)))
    ensures IsUnmarked(Tokens(u)) && IsUnmarked(Tokens(v))
  {
    Associative(u, [c], v);
    TokensAtBoundary(u, c, v);
    var ts, us, vs := Tokens(u + ([c] + v)), Tokens(u), Tokens(v);
    assert forall k :: 0 <= k < |us| ==> ts[k] == us[k];
    forall k | 0 <= k < |vs| - 1
      ensures !(vs[k] == Mark('$') && vs[k + 1] == Word("recv"))
    {
      assert ts[|us| + 1 + k] == vs[k] && ts[|us| + 1 + (k + 1)] == vs[k + 1];
    }
  }

  lemma BarIsPlain(v: string)
    requires Closes(v, 0) && IsUnmarked(Tokens(v))
    ensures Closes(v + "|", 0) && IsUnmarked(Tokens(v + "|"))
  {
    ClosesThenBar(v, 0);
    TokensAtBoundary(v, '|', "");
    assert v + "|" + "" == v + "|";
    var ts := Tokens(v + "|");
    assert ts == Tokens(v) + [Mark('|')];
  }

  lemma {:induction false} ClosesThenBar(v: string, depth: int)
    requires Closes(v, depth)
    ensures Closes(v + "|", depth)
  {
    if v == "" {
      assert (v + "|")[0] == '|' && (v + "|")[1..] == "";
    } else {
      assert (v + "|")[0] == v[0] && (v + "|")[1..] == v[1..] + "|";
      ClosesThenBar(v[1..], After(depth, v[0]));
    }
  }

  lemma NormalOfPlain(n: string, ps: seq<Option<string>>, rs: seq<Option<string>>)
    ensures CanonicalMethodSig(Method(n, false, "", ps, rs))
         == n + ("|" + (JoinComma(NormalAll(ps, "")) + ("|" + JoinComma(NormalAll(rs, "")))))
  {
    SignatureText(Method(n, false, "", ps, rs));
  }

  lemma NormalOfOne(t: string)
    ensures NormalAll([Some(t)], "") == [t]
  {
    assert [Some(t)][1..] == [];
  }

  lemma NormalOfTwo(u: string, v: string)
    ensures NormalAll([Some(u), Some(v)], "") == [u, v]
  {
    assert [Some(u), Some(v)][1..] == [Some(v)];
    NormalOfOne(v);
  }

  lemma CommaIsLost(n: string, u: string, v: string) returns (b: Method)
    requires '|' !in n && ArePlainTypes([Some(u), Some(v)])
    ensures IsPlainMethod(b) && CanonicalMethodSig(b) == CanonicalMethodSig(OneParameter(n, u + ("," + v)))
    ensures |b.parameters| == 2
  {
    var t := u + ("," + v);
    b := Method(n, false, "", [Some(u), Some(v)], []);
    NormalOfOne(t);
    NormalOfPlain(n, [Some(t)], []);
    NormalOfTwo(u, v);
    NormalOfPlain(n, [Some(u), Some(v)], []);
    JoinOfTwo(u, v);
  }

  lemma BarIsLost(n: string, u: string, v: string) returns (b: Method)
    requires '|' !in n && ArePlainTypes([Some(u)]) && ArePlainTypes([Some(v + "|")])
    ensures IsPlainMethod(b) && CanonicalMethodSig(b) == CanonicalMethodSig(OneParameter(n, u + ("|" + v)))
    ensures b.results == [Some(v + "|")]
  {
    var t := u + ("|" + v);
    b := Method(n, false, "", [Some(u)], [Some(v + "|")]);
    NormalOfOne(t);
    NormalOfPlain(n, [Some(t)], []);
    NormalOfOne(u);
    NormalOfOne(v + "|");
    NormalOfPlain(n, [Some(u)], [Some(v + "|")]);
    Associative(u, "|" + v, "|");
    Associative("|", v, "|");
  }

  /** An untidy type is taken for two, or for a parameter and a result. */
  lemma UntidyIsLost(n: string, t: string)
    requires '|' !in n && Closes(t, 0) && IsUnmarked(Tokens(t)) && !IsTidy(t)
    ensures !NothingIsLost(n, t)
  {
    var u, c, v := UntidySplits(t, 0);
    PartsAreUnmarked(u, c, v);
    var b;
    if c == ',' {
      b := CommaIsLost(n, u, v);
    } else {
      BarIsPlain(v);
      b := BarIsLost(n, u, v);
    }
    assert IsPlainMethod(b) && !SameMethod(OneParameter(n, t), b);
  }

  lemma JoinOfTwo(u: string, v: string)
    ensures JoinComma([u, v]) == u + ("," + v)
  {
    assert [u, v][1..] == [v];
    Associative(u, ",", v);
  }

  lemma {:induction false} NameBeforeBar(x: string, xs: string, y: string, ys: string)
    requires '|' !in x && '|' !in y && x + ("|" + xs) == y + ("|" + ys)
    ensures x == y && xs == ys
    decreases |x|
  {
    var s, t := x + ("|" + xs), y + ("|" + ys);
    assert s[0] == if x == "" then '|' else x[0];
    assert t[0] == if y == "" then '|' else y[0];
    if x == "" {
      assert s[1..] == xs && t[1..] == ys;
    } else {
      assert s[1..] == x[1..] + ("|" + xs) && t[1..] == y[1..] + ("|" + ys);
      NameBeforeBar(x[1..], xs, y[1..], ys);
      HeadAndTail(x);
      HeadAndTail(y);
    }
  }

  /** What closes its brackets before a bar in a tidy text with a bar behind it is the whole text. */
  lemma {:induction false} TidyBeforeBar(t: string, p: string, rest: string, depth: int)
    requires IsTidyFrom(t, depth) && Closes(p, depth) && t + "|" == p + ("|" + rest)
    ensures p == t && rest == ""
    decreases |t|
  {
    var s, q := t + "|", p + ("|" + rest);
    assert s[0] == if t == "" then '|' else t[0];
    assert q[0] == if p == "" then '|' else p[0];
    if t == "" {
      assert |s| == 1;
    } else if p != "" {
      assert s[1..] == t[1..] + "|" && q[1..] == p[1..] + ("|" + rest);
      TidyBeforeBar(t[1..], p[1..], rest, After(depth, t[0]));
      HeadAndTail(t);
      HeadAndTail(p);
    }
  }

  lemma {:induction false} ClosesThenComma(x: string, rest: string, depth: int)
    requires Closes(x, depth) && Closes(rest, 0)
    ensures Closes(x + "," + rest, depth)
  {
    var s := x + "," + rest;
    if x == "" {
      assert s[0] == ',' && s[1..] == rest;
    } else {
      assert s[0] == x[0] && s[1..] == x[1..] + "," + rest;
      ClosesThenComma(x[1..], rest, After(depth, x[0]));
    }
  }

  lemma {:induction false} JoinCloses(xs: seq<string>)
    requires forall i :: 0 <= i < |xs| ==> Closes(xs[i], 0)
    ensures Closes(JoinComma(xs), 0)
  {
    if |xs| > 1 {
      JoinCloses(xs[1..]);
      ClosesThenComma(xs[0], JoinComma(xs[1..]), 0);
    }
  }

  /** Texts that are joined to a tidy one are one. */
  lemma TidyJoinIsOne(xs: seq<string>)
    requires xs != [] && (forall i :: 0 <= i < |xs| ==> Closes(xs[i], 0)) && IsTidy(JoinComma(xs))
    ensures xs == [JoinComma(xs)]
  {
    if |xs| > 1 {
      OutsideIsUntidy(xs[0], ',', JoinComma(xs[1..]), 0);
      Associative(xs[0], ",", JoinComma(xs[1..]));
    }
  }

  lemma PlainTexts(ps: seq<Option<string>>, r: string)
    requires ArePlainTypes(ps)
    ensures forall i :: 0 <= i < |NormalAll(ps, r)| ==> Closes(NormalAll(ps, r)[i], 0)
  {
    forall i | 0 <= i < |ps|
      ensures Closes(NormalAll(ps, r)[i], 0)
    {
      NormalAllAt(ps, r, i);
      NormalKeepsDepth(ps[i], r);
    }
  }

  /** Plain types that are joined to a tidy text are the one type of that text, or none if it is empty. */
  lemma TidyJoinDecodes(t: string, ps: seq<Option<string>>, r: string)
    requires IsTidy(t) && IsUnmarked(Tokens(t)) && ArePlainTypes(ps) && JoinComma(NormalAll(ps, r)) == t
    ensures SameTypes([Some(t)], "", ps, r)
  {
    var xs := NormalAll(ps, r);
    PlainTexts(ps, r);
    JoinOfFilled(xs);
    TidyJoinIsOne(Filled(xs));
    if ps != [] {
      NormalAllAt(ps, r, 0);
      TypeIff(Some(t), "", ps[0], r);
    }
  }

  lemma TidyIsKept(n: string, t: string, b: Method)
    requires '|' !in n && IsTidy(t) && IsUnmarked(Tokens(t)) && IsPlainMethod(b)
    requires CanonicalMethodSig(b) == CanonicalMethodSig(OneParameter(n, t))
    ensures SameMethod(OneParameter(n, t), b)
  {
    var p, r := JoinComma(NormalTexts(b, b.parameters)), JoinComma(NormalTexts(b, b.results));
    NormalOfOne(t);
    NormalOfPlain(n, [Some(t)], []);
    SignatureText(b);
    NameBeforeBar(n, t + ("|" + ""), b.name, p + ("|" + r));
    PlainTexts(b.parameters, ReceiverOf(b));
    JoinCloses(NormalTexts(b, b.parameters));
    assert t + ("|" + "") == t + "|";
    TidyBeforeBar(t, p, r, 0);
    TidyJoinDecodes(t, b.parameters, ReceiverOf(b));
    TidyJoinDecodes("", b.results, ReceiverOf(b));
    assert IsBlank(b.results);
  }

  /** Of the types that close their brackets, exactly the tidy ones are never taken for something else: joining loses
      nothing iff no comma and no bar of the type stands outside of its brackets. */
  lemma TidyIffNothingIsLost(n: string, t: string)
    requires '|' !in n && Closes(t, 0) && IsUnmarked(Tokens(t))
    ensures IsTidy(t) <==> NothingIsLost(n, t)
  {
    if IsTidy(t) {
      forall b | IsPlainMethod(b) && CanonicalMethodSig(b) == CanonicalMethodSig(OneParameter(n, t))
        ensures SameMethod(OneParameter(n, t), b)
      {
        TidyIsKept(n, t, b);
      }
    } else {
      UntidyIsLost(n, t);
    }
  }
}

/** The documentation catalog: rendering a header and a table of translations to text, and
    reading that text back. A value is written in one of two notations. */
module Catalog {
  import opened Sequences
  import opened Wrappers
  import opened StringOrder

  // ---------------------------------------------------------------------------------------
  // Escapes

  function EscapedChar(c: char): string
  {
    if c == '\\' then "\\\\"
    else if c == '\'' then "\\'"
    else if c == '\n' then "\\n"
    else if c == '\t' then "\\t"
    else if c == '\r' then "\\r"
    else [c]
  }

  function Escaped(v: string): string
  {
    if v == [] then [] else EscapedChar(v[0]) + Escaped(v[1..])
  }

  function UnescapedChar(n: char): char
  {
    if n == 'n' then '\n'
    else if n == 't' then '\t'
    else if n == 'r' then '\r'
    else if n == '0' then '\0'
    else n
  }

  function Unescaped(v: string): (r: string)
    ensures |r| <= |v|
    decreases |v|
  {
    if v == [] then []
    else if v[0] == '\\' && |v| > 1 then [UnescapedChar(v[1])] + Unescaped(v[2..])
    else [v[0]] + Unescaped(v[1..])
  }

  method Escape(v: string) returns (out: string)
    ensures out == Escaped(v)
  {
    out := [];
    for i := 0 to |v|
      invariant out + Escaped(v[i..]) == Escaped(v)
    {
      assert v[i..][1..] == v[i + 1..];
      ghost var before := out;
      out := out + EscapedChar(v[i]);
      assert before + (EscapedChar(v[i]) + Escaped(v[i + 1..])) == out + Escaped(v[i + 1..]);
    }
  }

  method Unescape(v: string) returns (out: string)
    ensures out == Unescaped(v)
  {
    out := [];
    var i := 0;
    while i < |v|
      invariant 0 <= i <= |v|
      invariant out + Unescaped(v[i..]) == Unescaped(v)
    {
      var c := v[i];
      NextUnescaped(v, i, out);
      if c == '\\' && i + 1 < |v| {
        out := out + [UnescapedChar(v[i + 1])];
        i := i + 2;
      } else {
        out := out + [c];
        i := i + 1;
      }
    }
  }

  lemma NextUnescaped(v: string, i: nat, before: string)
    requires i < |v|
    ensures v[i] == '\\' && i + 1 < |v| ==>
      before + Unescaped(v[i..]) == before + [UnescapedChar(v[i + 1])] + Unescaped(v[i + 2..])
    ensures !(v[i] == '\\' && i + 1 < |v|) ==>
      before + Unescaped(v[i..]) == before + [v[i]] + Unescaped(v[i + 1..])
  {
    assert v[i..][1..] == v[i + 1..];
    if v[i] == '\\' && i + 1 < |v| {
      assert v[i..][2..] == v[i + 2..];
      Associative(before, [UnescapedChar(v[i + 1])], Unescaped(v[i + 2..]));
    } else {
      Associative(before, [v[i]], Unescaped(v[i + 1..]));
    }
  }

  /** Escaping loses nothing, for every value; the escaped text stays on one line. */
  lemma {:induction false} UnescapeEscape(v: string)
    ensures Unescaped(Escaped(v)) == v
  {
    if v != [] {
      UnescapeEscape(v[1..]);
      UnescapeOne(v[0], Escaped(v[1..]));
      HeadAndTail(v);
    }
  }

  lemma UnescapeOne(c: char, rest: string)
    ensures Unescaped(EscapedChar(c) + rest) == [c] + Unescaped(rest)
  {
    var e := EscapedChar(c);
    assert (e + rest)[|e|..] == rest;
  }

  lemma {:induction false} EscapedOnOneLine(v: string)
    ensures '\n' !in Escaped(v)
  {
    if v != [] {
      EscapedOnOneLine(v[1..]);
    }
  }

  /** After a backslash, four characters stand for a control character, and any other for itself. */
  lemma UnescapedPair(n: char)
    ensures Unescaped(['\\', n])
         == if n == 'n' then "\n" else if n == 't' then "\t" else if n == 'r' then "\r"
            else if n == '0' then "\0" else [n]
  {
    assert ['\\', n][2..] == [];
  }

  /** Read from the left, with every backslash taking the next character along, there is no bare quote, line break,
      tab or carriage return. */
  predicate IsQuotable(s: string)
    decreases |s|
  {
    if s == "" then true
    else if s[0] == '\\' then |s| > 1 && IsQuotable(s[2..])
    else s[0] != '\'' && s[0] != '\n' && s[0] != '\t' && s[0] != '\r' && IsQuotable(s[1..])
  }

  /** An escaped value can stand between quotes: it ends where the quotes end. */
  lemma {:induction false} EscapedIsQuotable(v: string)
    ensures IsQuotable(Escaped(v))
  {
    if v != [] {
      EscapedIsQuotable(v[1..]);
      var e, rest := EscapedChar(v[0]), Escaped(v[1..]);
      assert (e + rest)[|e|..] == rest;
    }
  }

  // ---------------------------------------------------------------------------------------
  // Lines

  /** The lines of a text, and the text of some lines. */
  function Split(t: string): (ls: seq<string>)
    ensures ls != []
    ensures forall l :: l in ls ==> '\n' !in l
  {
    if t == [] then [[]]
    else
      var rest := Split(t[1..]);
      if t[0] == '\n' then [[]] + rest else [[t[0]] + rest[0]] + rest[1..]
  }

  function Join(ls: seq<string>): string
    requires ls != []
  {
    if |ls| == 1 then ls[0] else ls[0] + "\n" + Join(ls[1..])
  }

  lemma {:induction false} JoinSplit(t: string)
    ensures Join(Split(t)) == t
    ensures |Split(t)| == 1 <==> '\n' !in t
  {
    if t != [] {
      JoinSplit(t[1..]);
      var rest := Split(t[1..]);
      HeadAndTail(t);
      if t[0] == '\n' {
        assert Split(t)[1..] == rest;
      } else {
        JoinAfter(t[0], rest);
      }
    }
  }

  lemma JoinAfter(c: char, ls: seq<string>)
    requires ls != []
    ensures Join([[c] + ls[0]] + ls[1..]) == [c] + Join(ls)
  {
    var more := [[c] + ls[0]] + ls[1..];
    assert more[1..] == ls[1..];
    if |ls| > 1 {
      Associative([c], ls[0], "\n");
      Associative([c], ls[0] + "\n", Join(ls[1..]));
    }
  }

  lemma {:induction false} SplitLine(l: string)
    requires '\n' !in l
    ensures Split(l) == [l]
  {
    if l != [] {
      SplitLine(l[1..]);
      assert l == [l[0]] + l[1..];
    }
  }

  lemma {:induction false} SplitBreak(l: string, t: string)
    requires '\n' !in l
    ensures Split(l + "\n" + t) == [l] + Split(t)
  {
    var s := l + "\n" + t;
    if l == [] {
      assert s[1..] == t;
    } else {
      assert s[1..] == l[1..] + "\n" + t;
      SplitBreak(l[1..], t);
      assert l == [l[0]] + l[1..];
    }
  }

  lemma {:induction false} SplitJoin(ls: seq<string>)
    requires ls != [] && forall l :: l in ls ==> '\n' !in l
    ensures Split(Join(ls)) == ls
  {
    if |ls| == 1 {
      SplitLine(ls[0]);
    } else {
      SplitJoin(ls[1..]);
      SplitBreak(ls[0], Join(ls[1..]));
      assert ls == [ls[0]] + ls[1..];
    }
  }

  lemma {:induction false} JoinConcat(a: seq<string>, b: seq<string>)
    requires a != [] && b != []
    ensures Join(a + b) == Join(a) + "\n" + Join(b)
  {
    if |a| == 1 {
      assert (a + b)[1..] == b;
    } else {
      assert (a + b)[1..] == a[1..] + b;
      JoinConcat(a[1..], b);
      assert a[0] + "\n" + (Join(a[1..]) + "\n" + Join(b)) == a[0] + "\n" + Join(a[1..]) + "\n" + Join(b);
    }
  }

  // ---------------------------------------------------------------------------------------
  // The three line patterns

  /** The characters that `\s` matches. */
  predicate IsSpace(c: char)
  {
    var n := c as int;
    || 9 <= n <= 13 || 28 <= n <= 32 || n == 0x85 || n == 0xA0 || n == 0x1680
    || 0x2000 <= n <= 0x200A || n == 0x2028 || n == 0x2029 || n == 0x202F || n == 0x205F || n == 0x3000
  }

  lemma SpaceIff(c: char)
    ensures IsSpace(c) <==>
      || c in "\t\n\U{B}\U{C}\r\U{1C}\U{1D}\U{1E}\U{1F} \U{85}\U{A0}\U{1680}"
      || '\U{2000}' <= c <= '\U{200A}'
      || c in "\U{2028}\U{2029}\U{202F}\U{205F}\U{3000}"
  {
  }

  predicate AllSpace(s: string)
  {
    forall i :: 0 <= i < |s| ==> IsSpace(s[i])
  }

  function StripLeft(s: string): string
  {
    if s != [] && IsSpace(s[0]) then StripLeft(s[1..]) else s
  }

  function StripRight(s: string): string
  {
    if s != [] && IsSpace(s[|s| - 1]) then StripRight(s[..|s| - 1]) else s
  }

  /** s up to its first single quote, and what follows that. */
  function CutQuote(s: string): Option<(string, string)>
  {
    if s == [] then None
    else if s[0] == '\'' then Some(([], s[1..]))
    else
      match CutQuote(s[1..])
      case None => None
      case Some((key, rest)) => Some(([s[0]] + key, rest))
  }

  /** The common start of an entry: blanks, a quoted key, a colon, blanks; with what follows. */
  function MatchKey(line: string): Option<(string, string)>
  {
    var s := StripLeft(line);
    if s == [] || s[0] != '\'' then None
    else
      match CutQuote(s[1..])
      case None => None
      case Some((key, rest)) =>
        if key == [] || rest == [] || rest[0] != ':' then None else Some((key, StripLeft(rest[1..])))
  }

  /** ENTRY: a key with a quoted value. The value runs to the last quote of the line. */
  function MatchEntry(line: string): Option<(string, string)>
  {
    match MatchKey(line)
    case None => None
    case Some((key, v)) =>
      var t := StripRight(v);
      if |t| > 1 && t[0] == '\'' && t[|t| - 1] == '\'' then Some((key, t[1..|t| - 1])) else None
  }

  /** RAW_START: a key followed by a lone backtick. */
  function MatchRawStart(line: string): Option<string>
  {
    match MatchKey(line)
    case None => None
    case Some((key, v)) => if StripRight(v) == "`" then Some(key) else None
  }

  /** RAW_END: a lone backtick. */
  predicate IsRawEnd(line: string)
  {
    StripRight(StripLeft(line)) == "`"
  }

  ghost predicate IsKey(key: string)
  {
    key != [] && '\'' !in key && '\n' !in key
  }

  /** The patterns as they are written, as concatenations. */
  ghost predicate EntryPattern(line: string, key: string, text: string)
  {
    exists a, b, c :: AllSpace(a) && AllSpace(b) && AllSpace(c) && key != [] && '\'' !in key
      && line == a + "'" + key + "':" + b + "'" + text + "'" + c
  }

  ghost predicate RawStartPattern(line: string, key: string)
  {
    exists a, b, c :: AllSpace(a) && AllSpace(b) && AllSpace(c) && key != [] && '\'' !in key
      && line == a + "'" + key + "':" + b + "`" + c
  }

  lemma {:induction false} StripLeftParts(s: string) returns (a: string)
    ensures AllSpace(a) && s == a + StripLeft(s)
    ensures StripLeft(s) == [] || !IsSpace(StripLeft(s)[0])
  {
    if s != [] && IsSpace(s[0]) {
      var a' := StripLeftParts(s[1..]);
      a := [s[0]] + a';
      HeadAndTail(s);
      Associative([s[0]], a', StripLeft(s));
    } else {
      a := [];
    }
  }

  lemma {:induction false} StripRightParts(s: string) returns (c: string)
    ensures AllSpace(c) && s == StripRight(s) + c
  {
    if s != [] && IsSpace(s[|s| - 1]) {
      var c' := StripRightParts(s[..|s| - 1]);
      c := c' + [s[|s| - 1]];
      assert s == s[..|s| - 1] + [s[|s| - 1]];
    } else {
      c := [];
    }
  }

  lemma {:induction false} StripLeftOf(a: string, s: string)
    requires AllSpace(a) && (s == [] || !IsSpace(s[0]))
    ensures StripLeft(a + s) == s
  {
    if a == [] {
      assert a + s == s;
    } else {
      assert (a + s)[1..] == a[1..] + s;
      StripLeftOf(a[1..], s);
    }
  }

  lemma {:induction false} StripRightOf(s: string, c: string)
    requires AllSpace(c) && (s == [] || !IsSpace(s[|s| - 1]))
    ensures StripRight(s + c) == s
  {
    if c == [] {
      assert s + c == s;
    } else {
      assert (s + c)[..|s + c| - 1] == s + c[..|c| - 1];
      StripRightOf(s, c[..|c| - 1]);
    }
  }

  lemma {:induction false} CutQuoteParts(s: string)
    ensures CutQuote(s).Some? ==> var (key, rest) := CutQuote(s).value;
              '\'' !in key && s == key + "'" + rest
    ensures CutQuote(s).None? ==> '\'' !in s
  {
    if s != [] && s[0] != '\'' {
      CutQuoteParts(s[1..]);
      assert s == [s[0]] + s[1..];
    }
  }

  lemma {:induction false} CutQuoteOf(key: string, rest: string)
    requires '\'' !in key
    ensures CutQuote(key + "'" + rest) == Some((key, rest))
  {
    var s := key + "'" + rest;
    if key == [] {
      assert s[1..] == rest;
    } else {
      assert s[1..] == key[1..] + "'" + rest;
      CutQuoteOf(key[1..], rest);
      assert key == [key[0]] + key[1..];
    }
  }

  lemma MatchKeyOf(a: string, key: string, b: string, v: string)
    requires AllSpace(a) && AllSpace(b) && key != [] && '\'' !in key && (v == [] || !IsSpace(v[0]))
    ensures MatchKey(a + "'" + key + "':" + b + v) == Some((key, v))
  {
    var rest := ":" + b + v;
    var s := "'" + (key + "'" + rest);
    KeyLineParts(a, key, b, v);
    StripLeftOf(a, s);
    assert s[1..] == key + "'" + rest;
    CutQuoteOf(key, rest);
    assert rest[1..] == b + v;
    StripLeftOf(b, v);
  }

  lemma KeyLineParts(a: string, key: string, b: string, v: string)
    ensures a + "'" + key + "':" + b + v == a + ("'" + (key + "'" + (":" + b + v)))
  {
    assert "':" == "'" + ":";
  }

  lemma MatchKeyParts(line: string) returns (a: string, b: string)
    requires MatchKey(line).Some?
    ensures var (key, v) := MatchKey(line).value;
      AllSpace(a) && AllSpace(b) && key != [] && '\'' !in key && (v == [] || !IsSpace(v[0]))
      && line == a + "'" + key + "':" + b + v
  {
    a := StripLeftParts(line);
    var s := StripLeft(line);
    CutQuoteParts(s[1..]);
    var (key, rest) := CutQuote(s[1..]).value;
    b := StripLeftParts(rest[1..]);
    var v := StripLeft(rest[1..]);
    HeadAndTail(s);
    HeadAndTail(rest);
    KeyLine(a, key, b, v);
  }

  lemma KeyLine(a: string, key: string, b: string, v: string)
    ensures a + ("'" + (key + "'" + (":" + (b + v)))) == a + "'" + key + "':" + b + v
  {
    var x := a + "'" + key + "':" + b + v;
    var y := a + ("'" + (key + "'" + (":" + (b + v))));
    assert |x| == |y|;
    assert forall i :: 0 <= i < |x| ==> x[i] == y[i];
  }

  /** The matcher decides the pattern, and finds the only way in which it can match. */
  lemma EntryIffPattern(line: string, key: string, text: string)
    ensures MatchEntry(line) == Some((key, text)) <==> EntryPattern(line, key, text)
  {
    if EntryPattern(line, key, text) {
      PatternIsMatched(line, key, text);
    }
    if MatchEntry(line) == Some((key, text)) {
      MatchIsPattern(line, key, text);
    }
  }

  lemma PatternIsMatched(line: string, key: string, text: string)
    requires EntryPattern(line, key, text)
    ensures MatchEntry(line) == Some((key, text))
  {
    var a, b, c :| AllSpace(a) && AllSpace(b) && AllSpace(c) && key != [] && '\'' !in key
      && line == a + "'" + key + "':" + b + "'" + text + "'" + c;
    var t := "'" + text + "'";
    assert line == a + "'" + key + "':" + b + (t + c);
    MatchKeyOf(a, key, b, t + c);
    StripRightOf(t, c);
    assert t[1..|t| - 1] == text;
  }

  lemma MatchIsPattern(line: string, key: string, text: string)
    requires MatchEntry(line) == Some((key, text))
    ensures EntryPattern(line, key, text)
  {
    var a, b := MatchKeyParts(line);
    var v := MatchKey(line).value.1;
    var c := StripRightParts(v);
    assert StripRight(v) == "'" + text + "'";
    assert line == a + "'" + key + "':" + b + "'" + text + "'" + c;
  }

  lemma RawStartIffPattern(line: string, key: string)
    ensures MatchRawStart(line) == Some(key) <==> RawStartPattern(line, key)
  {
    if RawStartPattern(line, key) {
      var a, b, c :| AllSpace(a) && AllSpace(b) && AllSpace(c) && key != [] && '\'' !in key
        && line == a + "'" + key + "':" + b + "`" + c;
      assert line == a + "'" + key + "':" + b + ("`" + c);
      MatchKeyOf(a, key, b, "`" + c);
      StripRightOf("`", c);
    }
    if MatchRawStart(line) == Some(key) {
      var a, b := MatchKeyParts(line);
      var c := StripRightParts(MatchKey(line).value.1);
      assert line == a + "'" + key + "':" + b + "`" + c;
    }
  }

  ghost predicate RawEndPattern(line: string)
  {
    exists a, c :: AllSpace(a) && AllSpace(c) && line == a + "`" + c
  }

  lemma RawEndIffPattern(line: string)
    ensures IsRawEnd(line) <==> RawEndPattern(line)
  {
    if RawEndPattern(line) {
      var a, c :| AllSpace(a) && AllSpace(c) && line == a + "`" + c;
      Associative(a, "`", c);
      StripLeftOf(a, "`" + c);
      StripRightOf("`", c);
    }
    if IsRawEnd(line) {
      var a := StripLeftParts(line);
      var c := StripRightParts(StripLeft(line));
      Associative(a, "`", c);
    }
  }

  // ---------------------------------------------------------------------------------------
  // Rendering

  function StripBlanks(s: string): string
  {
    if s != [] && (s[0] == ' ' || s[0] == '\t' || s[0] == '\r') then StripBlanks(s[1..]) else s
  }

  /** No line of v starts, after blanks, with a backtick. */
  predicate RawSafe(v: string)
  {
    forall line :: line in Split(v) ==> (var s := StripBlanks(line); s == [] || s[0] != '`')
  }

  /** Values of several lines are written as they are between backticks, when that is safe. */
  predicate IsRaw(v: string)
  {
    '\n' in v && RawSafe(v)
  }

  function RenderValue(v: string): string
  {
    if IsRaw(v) then "`\n" + v + "\n`" else "'" + Escaped(v) + "'"
  }

  /** A line of v begins at k and, after nothing but spaces, tabs and carriage returns, has a backtick at i. */
  predicate OpensWithBacktick(v: string, k: int, i: int)
  {
    && 0 <= k <= i < |v| && (k == 0 || v[k - 1] == '\n') && v[i] == '`'
    && forall j :: k <= j < i ==> v[j] == ' ' || v[j] == '\t' || v[j] == '\r'
  }

  ghost predicate SomeLineOpensWithBacktick(v: string)
  {
    exists k, i :: OpensWithBacktick(v, k, i)
  }

  /** The blanks of a line end at the first character that is none. */
  lemma {:induction false} StripBlanksFinds(s: string) returns (i: nat)
    ensures i <= |s| && StripBlanks(s) == s[i..]
    ensures forall j :: 0 <= j < i ==> s[j] == ' ' || s[j] == '\t' || s[j] == '\r'
    ensures i < |s| ==> s[i] != ' ' && s[i] != '\t' && s[i] != '\r'
  {
    if s != [] && (s[0] == ' ' || s[0] == '\t' || s[0] == '\r') {
      var more := StripBlanksFinds(s[1..]);
      i := more + 1;
      assert forall j :: 0 < j < i ==> s[j] == s[1..][j - 1];
    } else {
      i := 0;
    }
  }

  /** A line begins with a backtick after blanks. */
  predicate IsInlineCode(line: string)
  {
    var s := StripBlanks(line);
    s != [] && s[0] == '`'
  }

  lemma InlineCodeIff(line: string)
    requires '\n' !in line
    ensures IsInlineCode(line) <==> exists i :: OpensWithBacktick(line, 0, i)
  {
    var i := StripBlanksFinds(line);
    if IsInlineCode(line) {
      assert line[i] == '`';
      assert OpensWithBacktick(line, 0, i);
    }
    if j :| OpensWithBacktick(line, 0, j) {
      assert j == i;
    }
  }

  /** In a text of several lines, such a line is the first or one of the others. */
  lemma OpensInRest(l: string, t: string)
    requires '\n' !in l
    ensures SomeLineOpensWithBacktick(l + "\n" + t) <==>
            (exists i :: OpensWithBacktick(l, 0, i)) || SomeLineOpensWithBacktick(t)
  {
    var v, n := l + "\n" + t, |l| + 1;
    if i :| OpensWithBacktick(l, 0, i) {
      assert OpensWithBacktick(v, 0, i);
    }
    if k, i :| OpensWithBacktick(t, k, i) {
      assert OpensWithBacktick(v, k + n, i + n) by {
        assert forall j :: 0 <= j < |t| ==> v[j + n] == t[j];
        assert forall j :: k + n <= j < i + n ==> v[j] == t[j - n];
      }
    }
    if k, i :| OpensWithBacktick(v, k, i) {
      if k >= n {
        assert t == v[n..];
        assert k > n ==> v[k - 1] == t[k - n - 1];
        assert OpensWithBacktick(t, k - n, i - n);
      } else {
        assert v[|l|] == '\n' && forall j :: 0 <= j < |l| ==> v[j] == l[j];
        assert forall j :: 0 <= j < |l| ==> v[j] != '\n';
        assert OpensWithBacktick(l, 0, i);
      }
    }
  }

  lemma {:induction false} RawSafeOfLines(ls: seq<string>)
    requires ls != [] && forall l :: l in ls ==> '\n' !in l
    ensures (exists l :: l in ls && IsInlineCode(l)) <==> SomeLineOpensWithBacktick(Join(ls))
  {
    InlineCodeIff(ls[0]);
    if |ls| == 1 {
      if k, i :| OpensWithBacktick(ls[0], k, i) {
        assert k == 0;
      }
    } else {
      RawSafeOfLines(ls[1..]);
      OpensInRest(ls[0], Join(ls[1..]));
      assert forall l :: l in ls <==> l == ls[0] || l in ls[1..];
    }
  }

  /** A value is written as it is, between backticks, iff it has a line break and none of its lines begins with a
      backtick after blanks; any other value is escaped between quotes. */
  lemma RenderedRawIff(v: string)
    ensures RenderValue(v) == if '\n' in v && !SomeLineOpensWithBacktick(v) then "`\n" + v + "\n`"
                              else "'" + Escaped(v) + "'"
  {
    JoinSplit(v);
    RawSafeOfLines(Split(v));
    assert RawSafe(v) <==> !exists l :: l in Split(v) && IsInlineCode(l);
  }

  function EntryText(key: string, v: string): string
  {
    "  '" + key + "': " + RenderValue(v)
  }

  function Rendered(header: seq<string>, keys: seq<string>, entries: map<string, string>): string
    requires forall k :: k in keys ==> k in entries
  {
    Join(header + EntryTexts(keys, entries) + ["}"]) + "\n"
  }

  function EntryTexts(keys: seq<string>, entries: map<string, string>): (ls: seq<string>)
    requires forall k :: k in keys ==> k in entries
    ensures |ls| == |keys|
  {
    if keys == [] then [] else [EntryText(keys[0], entries[keys[0]])] + EntryTexts(keys[1..], entries)
  }

  lemma NextEntry(before: seq<string>, keys: seq<string>, n: nat, entries: map<string, string>)
    requires n < |keys| && forall k :: k in keys ==> k in entries
    ensures before + EntryTexts(keys[n..], entries)
         == before + [EntryText(keys[n], entries[keys[n]])] + EntryTexts(keys[n + 1..], entries)
  {
    assert keys[n..][1..] == keys[n + 1..];
    Associative(before, [EntryText(keys[n], entries[keys[n]])], EntryTexts(keys[n + 1..], entries));
  }

  /** render: `keys` is what the built-in sort makes of the table's keys. */
  method Render(header: seq<string>, entries: map<string, string>, keys: seq<string>) returns (text: string)
    requires keys == Sorted(entries.Keys)
    ensures text == Rendered(header, keys, entries)
  {
    var lines := header;
    for n := 0 to |keys|
      invariant lines + EntryTexts(keys[n..], entries) == header + EntryTexts(keys, entries)
    {
      var k := keys[n];
      NextEntry(lines, keys, n, entries);
      lines := lines + [EntryText(k, entries[k])];
    }
    assert keys[|keys|..] == [];
    assert lines == header + EntryTexts(keys, entries);
    lines := lines + ["}"];
    text := Join(lines) + "\n";
  }

  // ---------------------------------------------------------------------------------------
  // Reading

  predicate IsStart(line: string)
  {
    MatchEntry(line).Some? || MatchRawStart(line).Some?
  }

  /** How many lines belong to a raw block: all before the first that closes it. */
  function RawLength(lines: seq<string>): (n: nat)
    ensures n <= |lines|
    ensures forall i :: 0 <= i < n ==> !IsRawEnd(lines[i])
    ensures n < |lines| ==> IsRawEnd(lines[n])
  {
    if lines == [] || IsRawEnd(lines[0]) then 0 else 1 + RawLength(lines[1..])
  }

  function JoinAny(ls: seq<string>): string
  {
    if ls == [] then [] else Join(ls)
  }

  type Parsed = (seq<string>, map<string, string>)

  /** What reading the remaining lines makes of the header and the entries collected so far. */
  function ReadLines(lines: seq<string>, header: seq<string>, entries: map<string, string>): Parsed
    decreases |lines|
  {
    if lines == [] then (header, entries)
    else if MatchEntry(lines[0]).Some? then
      var (key, text) := MatchEntry(lines[0]).value;
      ReadLines(lines[1..], header, entries[key := Unescaped(text)])
    else if MatchRawStart(lines[0]).Some? then
      var n := RawLength(lines[1..]);
      var rest := lines[1 + n..];
      ReadLines(if rest == [] then [] else rest[1..], header,
                entries[MatchRawStart(lines[0]).value := JoinAny(lines[1..1 + n])])
    else
      ReadLines(lines[1..], if entries == map[] then header + [lines[0]] else header, entries)
  }

  function Read(text: string): Parsed
  {
    ReadLines(Split(text), [], map[])
  }

  lemma ReadEntryLine(lines: seq<string>, i: nat, header: seq<string>, entries: map<string, string>)
    requires i < |lines| && MatchEntry(lines[i]).Some?
    ensures var (key, text) := MatchEntry(lines[i]).value;
      ReadLines(lines[i..], header, entries) == ReadLines(lines[i + 1..], header, entries[key := Unescaped(text)])
  {
    assert lines[i..][1..] == lines[i + 1..];
  }

  lemma ReadOtherLine(lines: seq<string>, i: nat, header: seq<string>, entries: map<string, string>)
    requires i < |lines| && MatchEntry(lines[i]).None? && MatchRawStart(lines[i]).None?
    ensures ReadLines(lines[i..], header, entries)
         == ReadLines(lines[i + 1..], if entries == map[] then header + [lines[i]] else header, entries)
  {
    assert lines[i..][1..] == lines[i + 1..];
  }

  lemma RawLengthStep(lines: seq<string>, i: nat)
    requires i <= |lines|
    ensures RawLength(lines[i..]) == if i == |lines| || IsRawEnd(lines[i]) then 0 else 1 + RawLength(lines[i + 1..])
  {
    assert i < |lines| ==> lines[i..][1..] == lines[i + 1..];
  }

  /** The lines of a raw block that begins at line start. */
  method CollectRaw(lines: seq<string>, start: nat) returns (body: seq<string>, end: nat)
    requires start <= |lines|
    ensures end == start + RawLength(lines[start..])
    ensures body == lines[start..end]
  {
    body := [];
    end := start;
    RawLengthStep(lines, start);
    while end < |lines| && !IsRawEnd(lines[end])
      invariant start <= end <= |lines|
      invariant body == lines[start..end]
      invariant RawLength(lines[start..]) == end - start + RawLength(lines[end..])
    {
      RawLengthStep(lines, end);
      body := body + [lines[end]];
      end := end + 1;
    }
    RawLengthStep(lines, end);
  }

  /** Reading goes on behind the raw block that opens at line i. */
  lemma ReadRawLines(lines: seq<string>, i: nat, body: seq<string>, end: nat, header: seq<string>,
                     entries: map<string, string>)
    requires i < |lines| && MatchEntry(lines[i]).None? && MatchRawStart(lines[i]).Some?
    requires end == i + 1 + RawLength(lines[i + 1..]) && body == lines[i + 1..end]
    ensures ReadLines(lines[i..], header, entries) ==
      ReadLines(lines[if end < |lines| then end + 1 else end..], header,
                entries[MatchRawStart(lines[i]).value := JoinAny(body)])
  {
    var l, n := lines[i..], end - i - 1;
    RawParts(lines, i, end);
    assert ReadLines(l, header, entries) ==
      ReadLines(if l[1 + n..] == [] then [] else l[1 + n..][1..], header,
                entries[MatchRawStart(l[0]).value := JoinAny(l[1..1 + n])]);
  }

  lemma RawParts(lines: seq<string>, i: nat, end: nat)
    requires i < end <= |lines|
    ensures var l, n := lines[i..], end - i - 1;
      && l[1..] == lines[i + 1..] && l[1..1 + n] == lines[i + 1..end]
      && (if l[1 + n..] == [] then [] else l[1 + n..][1..]) == lines[if end < |lines| then end + 1 else end..]
  {
    var l, n := lines[i..], end - i - 1;
    assert l[1 + n..] == lines[end..];
  }

  method Parse(text: string) returns (header: seq<string>, entries: map<string, string>)
    ensures (header, entries) == Read(text)
  {
    header, entries := [], map[];
    var lines := Split(text);
    var i := 0;
    while i < |lines|
      invariant 0 <= i <= |lines|
      invariant ReadLines(lines[i..], header, entries) == Read(text)
    {
      var line := lines[i];
      var m := MatchEntry(line);
      if m.Some? {
        var value := Unescape(m.value.1);
        ReadEntryLine(lines, i, header, entries);
        entries := entries[m.value.0 := value];
        i := i + 1;
        continue;
      }
      var r := MatchRawStart(line);
      if r.Some? {
        var body, end := CollectRaw(lines, i + 1);
        ReadRawLines(lines, i, body, end, header, entries);
        entries := entries[r.value := JoinAny(body)];
        i := if end < |lines| then end + 1 else end;
        continue;
      }
      ReadOtherLine(lines, i, header, entries);
      if entries == map[] {
        header := header + [line];
      }
      i := i + 1;
    }
    assert lines[i..] == [];
  }
}

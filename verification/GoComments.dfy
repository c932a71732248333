/** The comment stripper in front of the spec extractor: it overwrites Go comments (and, on
    request, string contents) with blanks, so that offsets into the text stay valid. */
module GoComments {
  import opened Sequences
  import opened Wrappers

  // ---------------------------------------------------------------------------------------
  // The scanner

  datatype Mode = Code | Line | Block | Quote(q: char)

  predicate IsQuote(c: char)
  {
    c == '"' || c == '\'' || c == '`'
  }

  function Blank(c: char): char
  {
    if c == '\n' then '\n' else ' '
  }

  /** Whether the scanner takes two characters here, and the mode it goes on in. */
  predicate TwoAtOnce(m: Mode, s: string)
    requires |s| > 1
  {
    match m
    case Line => false
    case Block => s[0] == '*' && s[1] == '/'
    case Quote(_) => s[0] == '\\'
    case Code => s[0] == '/' && (s[1] == '/' || s[1] == '*')
  }

  function NextMode(m: Mode, s: string): Mode
    requires s != []
  {
    match m
    case Line => if s[0] == '\n' then Code else Line
    case Block => if |s| > 1 && TwoAtOnce(m, s) then Code else Block
    case Quote(q) => if !(|s| > 1 && TwoAtOnce(m, s)) && s[0] == q then Code else m
    case Code =>
      if |s| > 1 && TwoAtOnce(m, s) then (if s[1] == '/' then Line else Block)
      else if IsQuote(s[0]) then Quote(s[0])
      else Code
  }

  /** What is written for one character taken on its own. */
  function Written(m: Mode, c: char, keep: bool): char
  {
    match m
    case Line => Blank(c)
    case Block => Blank(c)
    case Quote(_) => if keep then c else Blank(c)
    case Code => if IsQuote(c) && !keep then ' ' else c
  }

  /** What is written for s when the scanner stands in mode m. */
  function Stripped(m: Mode, s: string, keep: bool): (r: string)
    ensures |r| == |s|
    decreases |s|
  {
    if s == [] then []
    else if |s| > 1 && TwoAtOnce(m, s) then
      (if m.Quote? && keep then s[..2] else "  ") + Stripped(NextMode(m, s), s[2..], keep)
    else
      [Written(m, s[0], keep)] + Stripped(NextMode(m, s), s[1..], keep)
  }

  /** The piece that is written at the front of s. */
  function Piece(m: Mode, s: string, keep: bool): string
    requires s != []
  {
    if |s| > 1 && TwoAtOnce(m, s) then (if m.Quote? && keep then s[..2] else "  ") else [Written(m, s[0], keep)]
  }

  /** How many characters the scanner takes. */
  function Taken(m: Mode, s: string): (k: nat)
    requires s != []
    ensures k <= |s|
  {
    if |s| > 1 && TwoAtOnce(m, s) then 2 else 1
  }

  /** What is written so far, and what is still to be written, make up the whole. */
  ghost predicate Along(out: string, m: Mode, s: string, i: nat, keep: bool)
  {
    i <= |s| && out + Stripped(m, s[i..], keep) == Stripped(Code, s, keep)
  }

  lemma Step(out: string, m: Mode, s: string, i: nat, keep: bool)
    requires i < |s| && Along(out, m, s, i, keep)
    ensures Along(out + Piece(m, s[i..], keep), NextMode(m, s[i..]), s, i + Taken(m, s[i..]), keep)
  {
    var rest, k := s[i..], Taken(m, s[i..]);
    assert rest[k..] == s[i + k..];
    Associative(out, Piece(m, rest, keep), Stripped(NextMode(m, rest), rest[k..], keep));
  }

  lemma AtTheEnd(out: string, m: Mode, s: string, keep: bool)
    requires Along(out, m, s, |s|, keep)
    ensures out == Stripped(Code, s, keep)
  {
    assert Stripped(m, s[|s|..], keep) == [];
  }

  lemma AtTheStart(s: string, keep: bool)
    ensures Along([], Code, s, 0, keep)
  {
    assert s[0..] == s;
  }

  /** strip_go_comments: an index, two flags and the open quote, if any. */
  method StripGoComments(s: string, keepStrings: bool) returns (r: string)
    ensures r == Stripped(Code, s, keepStrings)
  {
    var out: string := [];
    var i, n := 0, |s|;
    var inLine, inBlk := false, false;
    var q: Option<char> := None;
    AtTheStart(s, keepStrings);
    while i < n
      invariant 0 <= i <= n && IsState(inLine, inBlk, q)
      invariant Along(out, ModeOf(inLine, inBlk, q), s, i, keepStrings)
      decreases n - i
    {
      Step(out, ModeOf(inLine, inBlk, q), s, i, keepStrings);
      var piece: string;
      var k: nat;
      piece, k, inLine, inBlk, q := Turn(s, i, inLine, inBlk, q, keepStrings);
      out := out + piece;
      i := i + k;
    }
    AtTheEnd(out, ModeOf(inLine, inBlk, q), s, keepStrings);
    r := out;
  }

  /** One turn of the loop: what is written, how many characters are taken, and the new state. */
  method Turn(s: string, i: nat, inLine: bool, inBlk: bool, q: Option<char>, keepStrings: bool)
    returns (piece: string, k: nat, inLine': bool, inBlk': bool, q': Option<char>)
    requires i < |s| && IsState(inLine, inBlk, q)
    ensures IsState(inLine', inBlk', q')
    ensures var m := ModeOf(inLine, inBlk, q);
            && piece == Piece(m, s[i..], keepStrings) && k == Taken(m, s[i..])
            && ModeOf(inLine', inBlk', q') == NextMode(m, s[i..])
  {
    if q.Some? {
      inLine', inBlk' := false, false;
      piece, k, q' := InLiteral(s, i, q.value, keepStrings);
    } else {
      piece, k, inLine', inBlk', q' := Outside(s, i, inLine, inBlk, keepStrings);
    }
  }

  /** One turn of the loop inside a literal. */
  method InLiteral(s: string, i: nat, quote: char, keepStrings: bool) returns (piece: string, k: nat, q: Option<char>)
    requires i < |s|
    ensures piece == Piece(Quote(quote), s[i..], keepStrings) && k == Taken(Quote(quote), s[i..])
    ensures ModeOf(false, false, q) == NextMode(Quote(quote), s[i..])
  {
    var c := s[i];
    if c == '\\' && i + 1 < |s| {
      assert s[i..][..2] == [c, s[i + 1]];
      return [if keepStrings then c else ' ', if keepStrings then s[i + 1] else ' '], 2, Some(quote);
    }
    q := if c == quote then None else Some(quote);
    piece, k := [if keepStrings then c else if c == '\n' then '\n' else ' '], 1;
  }

  /** One turn of the loop in a comment or in code. */
  method Outside(s: string, i: nat, inLine: bool, inBlk: bool, keepStrings: bool)
    returns (piece: string, k: nat, inLine': bool, inBlk': bool, q: Option<char>)
    requires i < |s| && IsState(inLine, inBlk, None)
    ensures IsState(inLine', inBlk', q)
    ensures var m := ModeOf(inLine, inBlk, None);
            && piece == Piece(m, s[i..], keepStrings) && k == Taken(m, s[i..])
            && ModeOf(inLine', inBlk', q) == NextMode(m, s[i..])
  {
    var c := s[i];
    inLine', inBlk', q, k := inLine, inBlk, None, 1;
    if inLine {
      inLine' := c != '\n';
      piece := if c == '\n' then [c] else [' '];
    } else if inBlk {
      if c == '*' && i + 1 < |s| && s[i + 1] == '/' {
        inBlk', piece, k := false, "  ", 2;
      } else {
        piece := [if c == '\n' then '\n' else ' '];
      }
    } else if c == '/' && i + 1 < |s| && s[i + 1] == '/' {
      inLine', piece, k := true, "  ", 2;
    } else if c == '/' && i + 1 < |s| && s[i + 1] == '*' {
      inBlk', piece, k := true, "  ", 2;
    } else if IsQuote(c) {
      q, piece := Some(c), [if keepStrings then c else ' '];
    } else {
      piece := [c];
    }
  }

  predicate IsState(inLine: bool, inBlk: bool, q: Option<char>)
  {
    !(inLine && inBlk) && (q.Some? ==> !inLine && !inBlk)
  }

  function ModeOf(inLine: bool, inBlk: bool, q: Option<char>): Mode
  {
    if inLine then Line else if inBlk then Block else if q.Some? then Quote(q.value) else Code
  }

  // ---------------------------------------------------------------------------------------
  // Positions

  /** What a position of the text belongs to, as the scanner sees it. An escape is a backslash
      inside a literal together with the character after it. */
  datatype Region = Plain | Comment | Literal | Escape

  function Regions(m: Mode, s: string): (r: seq<Region>)
    ensures |r| == |s|
    decreases |s|
  {
    if s == [] then []
    else if |s| > 1 && TwoAtOnce(m, s) then
      (if m.Quote? then [Escape, Escape] else [Comment, Comment]) + Regions(NextMode(m, s), s[2..])
    else
      [RegionOf(m, s[0])] + Regions(NextMode(m, s), s[1..])
  }

  /** The region of a character taken on its own; the line break behind a line comment is no
      longer part of it. */
  function RegionOf(m: Mode, c: char): Region
  {
    match m
    case Line => if c == '\n' then Plain else Comment
    case Block => Comment
    case Quote(_) => Literal
    case Code => if IsQuote(c) then Literal else Plain
  }

  /** Every position keeps its character unless it lies in a comment, or in a literal that is to
      be blanked; there it becomes a blank, or stays a line break. */
  lemma {:induction false} EachPosition(m: Mode, s: string, keep: bool, i: nat)
    requires i < |s|
    ensures Stripped(m, s, keep)[i] ==
      match Regions(m, s)[i]
      case Plain => s[i]
      case Comment => Blank(s[i])
      case Literal => if keep then s[i] else Blank(s[i])
      case Escape => if keep then s[i] else ' '
    decreases |s|
  {
    if |s| > 1 && TwoAtOnce(m, s) {
      if i >= 2 {
        EachPosition(NextMode(m, s), s[2..], keep, i - 2);
      }
    } else if i >= 1 {
      EachPosition(NextMode(m, s), s[1..], keep, i - 1);
    }
  }

  /** The line breaks are exactly those of the text, so line numbers stay valid, if and only if
      strings are kept or no literal holds a line break right behind an escaping backslash. */
  lemma LinesKept(s: string, keep: bool)
    ensures (forall i :: 0 <= i < |s| ==> (Stripped(Code, s, keep)[i] == '\n' <==> s[i] == '\n')) <==>
      keep || forall i :: 0 <= i < |s| && s[i] == '\n' ==> Regions(Code, s)[i] != Escape
  {
    forall i | 0 <= i < |s|
      ensures (Stripped(Code, s, keep)[i] == '\n' <==> s[i] == '\n')
         <==> keep || !(s[i] == '\n' && Regions(Code, s)[i] == Escape)
    {
      EachPosition(Code, s, keep, i);
    }
  }

  // ---------------------------------------------------------------------------------------
  // Stripping twice

  /** The mode in which a second pass stands where the first stood in m. */
  function Shadow(m: Mode, keep: bool): Mode
  {
    if m.Quote? && keep then m else Code
  }

  lemma {:induction false} StrippedAgain(m: Mode, s: string, keep: bool)
    ensures Stripped(Shadow(m, keep), Stripped(m, s, keep), keep) == Stripped(m, s, keep)
    decreases |s|
  {
    if s != [] {
      var m' := NextMode(m, s);
      if |s| > 1 && TwoAtOnce(m, s) {
        StrippedAgain(m', s[2..], keep);
        PairAgain(m, s, keep);
      } else {
        StrippedAgain(m', s[1..], keep);
        OneAgain(m, s, keep);
      }
    }
  }

  lemma PairAgain(m: Mode, s: string, keep: bool)
    requires |s| > 1 && TwoAtOnce(m, s)
    requires var t := Stripped(NextMode(m, s), s[2..], keep); Stripped(Shadow(NextMode(m, s), keep), t, keep) == t
    ensures Stripped(Shadow(m, keep), Stripped(m, s, keep), keep) == Stripped(m, s, keep)
  {
    var r, t := Stripped(m, s, keep), Stripped(NextMode(m, s), s[2..], keep);
    assert r[2..] == t;
    if m.Quote? && keep {
      assert r[..2] == s[..2];
    } else {
      BlanksAgain(t, keep);
      assert r == "  " + t;
    }
  }

  lemma BlanksAgain(t: string, keep: bool)
    ensures Stripped(Code, "  " + t, keep) == "  " + Stripped(Code, t, keep)
  {
    assert ("  " + t)[1..] == " " + t && (" " + t)[1..] == t;
    assert Stripped(Code, " " + t, keep) == " " + Stripped(Code, t, keep);
  }

  lemma OneAgain(m: Mode, s: string, keep: bool)
    requires s != [] && !(|s| > 1 && TwoAtOnce(m, s))
    requires var t := Stripped(NextMode(m, s), s[1..], keep); Stripped(Shadow(NextMode(m, s), keep), t, keep) == t
    ensures Stripped(Shadow(m, keep), Stripped(m, s, keep), keep) == Stripped(m, s, keep)
  {
    var r := Stripped(m, s, keep);
    assert r[1..] == Stripped(NextMode(m, s), s[1..], keep);
    if m == Code && s[0] == '/' && |s| > 1 {
      FirstCharacter(Code, s[1..], keep);
    }
  }

  lemma FirstCharacter(m: Mode, s: string, keep: bool)
    requires s != []
    ensures Stripped(m, s, keep)[0] in {s[0], ' ', '\n'}
  {
  }

  /** Stripping is idempotent, with or without the strings. */
  lemma Idempotent(s: string, keep: bool)
    ensures Stripped(Code, Stripped(Code, s, keep), keep) == Stripped(Code, s, keep)
  {
    StrippedAgain(Code, s, keep);
  }

  // ---------------------------------------------------------------------------------------
  // Against the lexical grammar of Go

  /** The lexical elements of a Go source that matter here. */
  datatype Lexeme =
    | Other(c: char)
    | LineComment(body: string)
    | BlockComment(body: string)
    | Interpreted(q: char, body: string)
    | Raw(body: string)

  function Source(l: Lexeme): string
  {
    match l
    case Other(c) => [c]
    case LineComment(body) => "//" + body
    case BlockComment(body) => "/*" + body + "*/"
    case Interpreted(q, body) => [q] + body + [q]
    case Raw(body) => "`" + body + "`"
  }

  /** The body of an interpreted string or rune literal: every backslash escapes one character,
      and no unescaped closing quote. */
  predicate EscapedBody(q: char, body: string)
  {
    if body == [] then true
    else if body[0] == '\\' then |body| > 1 && EscapedBody(q, body[2..])
    else body[0] != q && EscapedBody(q, body[1..])
  }

  /** A block comment ends at the first star-slash. */
  predicate NoBlockEnd(body: string)
  {
    forall i :: 0 <= i < |body| ==> !(body[i] == '*' && (if i + 1 < |body| then body[i + 1] == '/' else false))
  }

  predicate IsLexeme(l: Lexeme)
  {
    match l
    case Other(c) => !IsQuote(c)
    case LineComment(body) => '\n' !in body
    case BlockComment(body) => NoBlockEnd(body)
    case Interpreted(q, body) => (q == '"' || q == '\'') && EscapedBody(q, body)
    case Raw(body) => '`' !in body
  }

  function Text(ls: seq<Lexeme>): string
  {
    if ls == [] then [] else Source(ls[0]) + Text(ls[1..])
  }

  /** ls is how Go reads its text: a slash that opens no comment is followed by neither a slash
      nor a star, and a line comment runs up to the line break or the end. */
  predicate IsGoSource(ls: seq<Lexeme>)
  {
    ls != [] ==>
      var rest := Text(ls[1..]);
      && IsLexeme(ls[0])
      && IsGoSource(ls[1..])
      && (ls[0] == Other('/') ==> rest == [] || (rest[0] != '/' && rest[0] != '*'))
      && (ls[0].LineComment? ==> rest == [] || rest[0] == '\n')
  }

  function Blanks(s: string): (r: string)
    ensures |r| == |s|
    ensures forall i :: 0 <= i < |s| ==> r[i] == Blank(s[i])
  {
    seq(|s|, i requires 0 <= i < |s| => Blank(s[i]))
  }

  /** The contents of a blanked literal. */
  function BlankedBody(body: string): (r: string)
    ensures |r| == |body|
  {
    if body == [] then []
    else if body[0] == '\\' && |body| > 1 then "  " + BlankedBody(body[2..])
    else [Blank(body[0])] + BlankedBody(body[1..])
  }

  /** What should be left of a lexical element. */
  function Kept(l: Lexeme, keep: bool): string
  {
    match l
    case Other(c) => [c]
    case LineComment(body) => "  " + Blanks(body)
    case BlockComment(body) => "  " + Blanks(body) + "  "
    case Interpreted(q, body) => if keep then Source(l) else " " + BlankedBody(body) + " "
    case Raw(body) => if keep then Source(l) else " " + BlankedBody(body) + " "
  }

  function KeptText(ls: seq<Lexeme>, keep: bool): string
  {
    if ls == [] then [] else Kept(ls[0], keep) + KeptText(ls[1..], keep)
  }

  function TrailingBackslashes(s: string): (n: nat)
    ensures n <= |s|
  {
    if s == [] || s[|s| - 1] != '\\' then 0 else 1 + TrailingBackslashes(s[..|s| - 1])
  }

  /** The mode of the scanner after all of s. */
  function ModeAfter(m: Mode, s: string): Mode
    decreases |s|
  {
    if s == [] then m
    else if |s| > 1 && TwoAtOnce(m, s) then ModeAfter(NextMode(m, s), s[2..])
    else ModeAfter(NextMode(m, s), s[1..])
  }

  /** The scanner takes backslashes in raw strings for escapes, which Go does not. It leaves a
      raw string where Go does if and only if the string ends in an even run of backslashes. */
  lemma {:induction false} RawStringTracked(body: string)
    requires '`' !in body
    ensures ModeAfter(Quote('`'), body + "`") == Code <==> TrailingBackslashes(body) % 2 == 0
    ensures ModeAfter(Quote('`'), body + "`") in {Code, Quote('`')}
    decreases |body|
  {
    var m := Quote('`');
    var s := body + "`";
    if body == [] {
      assert s[1..] == [];
      assert ModeAfter(m, s) == ModeAfter(Code, []);
    } else if body[0] == '\\' {
      if |body| == 1 {
        assert s[2..] == [];
        assert TrailingBackslashes(body) == 1 + TrailingBackslashes(body[..0]);
      } else {
        assert s[2..] == body[2..] + "`";
        assert ModeAfter(m, s) == ModeAfter(m, s[2..]);
        RawStringTracked(body[2..]);
        TrailingOfSuffix(body, 2);
        if body[1] != '\\' {
          TrailingStopsAt(body, 1);
        }
      }
    } else {
      assert s[1..] == body[1..] + "`";
      assert ModeAfter(m, s) == ModeAfter(m, s[1..]);
      RawStringTracked(body[1..]);
      TrailingOfSuffix(body, 1);
      TrailingStopsAt(body, 0);
    }
  }

  /** The run at the end of s and that at the end of s[k..], unless the latter is all of it. */
  lemma {:induction false} TrailingOfSuffix(s: string, k: nat)
    requires k <= |s|
    ensures TrailingBackslashes(s) == TrailingBackslashes(s[k..])
      || (TrailingBackslashes(s[k..]) == |s| - k && TrailingBackslashes(s) == |s| - k + TrailingBackslashes(s[..k]))
    decreases |s|
  {
    if k < |s| && s[|s| - 1] == '\\' {
      var t := s[..|s| - 1];
      TrailingOfSuffix(t, k);
      assert s[k..][..|s[k..]| - 1] == t[k..];
      assert t[..k] == s[..k];
    } else if k == |s| {
      assert s[..k] == s;
    }
  }

  lemma {:induction false} TrailingStopsAt(s: string, k: nat)
    requires k < |s| && s[k] != '\\'
    ensures TrailingBackslashes(s[..k + 1]) == 0
    ensures TrailingBackslashes(s) <= |s| - k - 1
    decreases |s|
  {
    if s[|s| - 1] == '\\' {
      TrailingStopsAt(s[..|s| - 1], k);
    }
  }

  /** On every Go source whose raw strings end in an even run of backslashes, the stripper does
      what it is for: comments become blanks, everything else stays (or, for literals, is
      blanked when that is asked for). */
  lemma {:induction false} StripsGoSource(ls: seq<Lexeme>, keep: bool)
    requires IsGoSource(ls)
    requires forall l :: l in ls && l.Raw? ==> TrailingBackslashes(l.body) % 2 == 0
    ensures Stripped(Code, Text(ls), keep) == KeptText(ls, keep)
  {
    if ls != [] {
      StripsGoSource(ls[1..], keep);
      assert ls[0] in ls;
      StripsLexeme(ls[0], Text(ls[1..]), keep);
    }
  }

  lemma StripsLexeme(l: Lexeme, rest: string, keep: bool)
    requires IsLexeme(l)
    requires l == Other('/') ==> rest == [] || (rest[0] != '/' && rest[0] != '*')
    requires l.LineComment? ==> rest == [] || rest[0] == '\n'
    requires l.Raw? ==> TrailingBackslashes(l.body) % 2 == 0
    ensures Stripped(Code, Source(l) + rest, keep) == Kept(l, keep) + Stripped(Code, rest, keep)
  {
    match l {
      case Other(c) =>
        assert (Source(l) + rest)[1..] == rest;
      case LineComment(body) =>
        LineLexeme(body, rest, keep);
      case BlockComment(body) =>
        BlockLexeme(body, rest, keep);
      case Interpreted(q, body) =>
        QuotedLexeme(q, body, rest, keep);
      case Raw(body) =>
        RawIsEscaped(body);
        QuotedLexeme('`', body, rest, keep);
    }
  }

  lemma LineLexeme(body: string, rest: string, keep: bool)
    requires '\n' !in body && (rest == [] || rest[0] == '\n')
    ensures Stripped(Code, "//" + body + rest, keep) == "  " + Blanks(body) + Stripped(Code, rest, keep)
  {
    Opened("//" + body + rest, Line, body + rest, keep);
    LineCommentBlanked(body, rest, keep);
  }

  lemma BlockLexeme(body: string, rest: string, keep: bool)
    requires NoBlockEnd(body)
    ensures Stripped(Code, "/*" + body + "*/" + rest, keep) == "  " + Blanks(body) + "  " + Stripped(Code, rest, keep)
  {
    Opened("/*" + body + "*/" + rest, Block, body + "*/" + rest, keep);
    BlockCommentBlanked(body, rest, keep);
  }

  lemma Opened(s: string, m: Mode, inside: string, keep: bool)
    requires (m == Line && s == "//" + inside) || (m == Block && s == "/*" + inside)
    ensures Stripped(Code, s, keep) == "  " + Stripped(m, inside, keep)
  {
    assert s[2..] == inside;
  }

  lemma QuotedLexeme(q: char, body: string, rest: string, keep: bool)
    requires IsQuote(q) && EscapedBody(q, body)
    ensures Stripped(Code, [q] + body + [q] + rest, keep)
         == (if keep then [q] + body + [q] else " " + BlankedBody(body) + " ") + Stripped(Code, rest, keep)
  {
    var s := [q] + body + [q] + rest;
    assert s[1..] == body + [q] + rest;
    LiteralKept(q, body, rest, keep);
  }

  lemma {:induction false} LineCommentBlanked(body: string, rest: string, keep: bool)
    requires '\n' !in body && (rest == [] || rest[0] == '\n')
    ensures Stripped(Line, body + rest, keep) == Blanks(body) + Stripped(Code, rest, keep)
  {
    if body == [] {
      assert body + rest == rest;
    } else {
      assert (body + rest)[1..] == body[1..] + rest;
      LineCommentBlanked(body[1..], rest, keep);
      assert Blanks(body) == [' '] + Blanks(body[1..]);
      Associative([' '], Blanks(body[1..]), Stripped(Code, rest, keep));
    }
  }

  lemma {:induction false} BlockCommentBlanked(body: string, rest: string, keep: bool)
    requires NoBlockEnd(body)
    ensures Stripped(Block, body + "*/" + rest, keep) == Blanks(body) + "  " + Stripped(Code, rest, keep)
  {
    var s := body + "*/" + rest;
    if body == [] {
      assert s[2..] == rest;
    } else {
      assert s[1..] == body[1..] + "*/" + rest;
      assert s[1] == if |body| > 1 then body[1] else '*';
      NoBlockEndAfter(body);
      BlockCommentBlanked(body[1..], rest, keep);
      assert Blanks(body) == [Blank(body[0])] + Blanks(body[1..]);
      Associative([Blank(body[0])], Blanks(body[1..]), "  ");
      Associative([Blank(body[0])], Blanks(body[1..]) + "  ", Stripped(Code, rest, keep));
    }
  }

  lemma NoBlockEndAfter(body: string)
    requires body != [] && NoBlockEnd(body)
    ensures NoBlockEnd(body[1..])
  {
    forall i | 0 <= i < |body[1..]|
      ensures !(body[1..][i] == '*' && (if i + 1 < |body[1..]| then body[1..][i + 1] == '/' else false))
    {
      assert body[1..][i] == body[i + 1];
      assert i + 1 < |body[1..]| ==> body[1..][i + 1] == body[i + 2];
    }
  }

  /** A literal whose body the scanner reads as escaped text is passed over as a whole. */
  lemma {:induction false} LiteralKept(q: char, body: string, rest: string, keep: bool)
    requires EscapedBody(q, body) && q != '\\'  && q != '\n'
    ensures Stripped(Quote(q), body + [q] + rest, keep)
         == (if keep then body + [q] else BlankedBody(body) + " ") + Stripped(Code, rest, keep)
    decreases |body|
  {
    var s := body + [q] + rest;
    if body == [] {
      assert s[1..] == rest;
    } else if body[0] == '\\' {
      assert s[2..] == body[2..] + [q] + rest;
      assert s[..2] == body[..2];
      LiteralKept(q, body[2..], rest, keep);
      TakeAndDrop(body, 2);
      var x := if keep then body[2..] + [q] else BlankedBody(body[2..]) + " ";
      Associative(if keep then body[..2] else "  ", x, Stripped(Code, rest, keep));
      Associative(body[..2], body[2..], [q]);
      Associative("  ", BlankedBody(body[2..]), " ");
    } else {
      assert s[1..] == body[1..] + [q] + rest;
      LiteralKept(q, body[1..], rest, keep);
      HeadAndTail(body);
      var x := if keep then body[1..] + [q] else BlankedBody(body[1..]) + " ";
      Associative([if keep then body[0] else Blank(body[0])], x, Stripped(Code, rest, keep));
      Associative([body[0]], body[1..], [q]);
      Associative([Blank(body[0])], BlankedBody(body[1..]), " ");
    }
  }

  lemma {:induction false} RawIsEscaped(body: string)
    requires '`' !in body
    ensures EscapedBody('`', body) <==> TrailingBackslashes(body) % 2 == 0
    decreases |body|
  {
    if body != [] {
      if body[0] == '\\' {
        if |body| == 1 {
          assert TrailingBackslashes(body) == 1 + TrailingBackslashes(body[..0]);
        } else {
          RawIsEscaped(body[2..]);
          TrailingOfSuffix(body, 2);
          if body[1] != '\\' {
            TrailingStopsAt(body, 1);
          }
        }
      } else {
        RawIsEscaped(body[1..]);
        TrailingOfSuffix(body, 1);
        TrailingStopsAt(body, 0);
      }
    }
  }

  ghost predicate HandledBefore(l: Lexeme, rest: string, keep: bool) {
    Stripped(Code, Source(l) + rest, keep) == Kept(l, keep) + Stripped(Code, rest, keep)
  }

  /** Whatever follows it, the lexical element is treated as it should be, and so is what follows. */
  ghost predicate Handled(l: Lexeme) {
    forall rest, keep :: HandledBefore(l, rest, keep)
  }

  /** A raw string that ends in an odd run of backslashes is not left at its end. */
  lemma {:induction false} RawGoesOn(body: string, rest: string)
    requires '`' !in body && !EscapedBody('`', body)
    ensures Stripped(Quote('`'), body + "`" + rest, true) == body + "`" + Stripped(Quote('`'), rest, true)
    decreases |body|
  {
    var s := body + "`" + rest;
    var k := if body[0] != '\\' then 1 else 2;
    if |body| < k {
      assert s[2..] == rest && s[..2] == body + "`";
    } else {
      assert s[k..] == body[k..] + "`" + rest && s[..k] == body[..k];
      RawGoesOn(body[k..], rest);
      TakeAndDrop(body, k);
      Associative(body[..k], body[k..] + "`", Stripped(Quote('`'), rest, true));
      Associative(body[..k], body[k..], "`");
    }
  }

  /** A raw string is handled, before every continuation, iff it ends in an even run of backslashes. */
  lemma RawHandledIff(body: string)
    requires '`' !in body
    ensures Handled(Raw(body)) <==> TrailingBackslashes(body) % 2 == 0
  {
    RawIsEscaped(body);
    if TrailingBackslashes(body) % 2 == 0 {
      forall rest, keep
        ensures HandledBefore(Raw(body), rest, keep)
      {
        StripsLexeme(Raw(body), rest, keep);
      }
    } else {
      RawHides(body);
    }
  }

  /** It hides the comment after it. */
  lemma RawHides(body: string)
    requires '`' !in body && !EscapedBody('`', body)
    ensures !HandledBefore(Raw(body), "//", true)
  {
    RawHidesText(body, "//");
    assert Stripped(Code, "//", true) == "  " by {
      assert "//"[2..] == "";
    }
    assert Stripped(Code, Source(Raw(body)) + "//", true)[|body| + 2] == '/';
  }

  /** In a raw string, text without its quote and without backslashes stays as it is. */
  lemma {:induction false} StaysInRaw(s: string)
    requires '`' !in s && '\\' !in s
    ensures Stripped(Quote('`'), s, true) == s
  {
    if s != [] {
      StaysInRaw(s[1..]);
      HeadAndTail(s);
    }
  }

  lemma TextOfTwo(a: Lexeme, b: Lexeme, keep: bool)
    ensures Text([a, b]) == Source(a) + Source(b) && KeptText([a, b], keep) == Kept(a, keep) + Kept(b, keep)
  {
    assert [a, b][1..] == [b] && [b][1..] == [];
    assert Text([b]) == Source(b) + [] && KeptText([b], keep) == Kept(b, keep) + [];
  }

  lemma OpenedRaw(inside: string)
    ensures Stripped(Code, "`" + inside, true) == "`" + Stripped(Quote('`'), inside, true)
  {
    assert ("`" + inside)[1..] == inside;
  }

  lemma RawHidesText(body: string, rest: string)
    requires '`' !in body && !EscapedBody('`', body) && '`' !in rest && '\\' !in rest
    ensures Stripped(Code, "`" + body + "`" + rest, true) == "`" + body + "`" + rest
  {
    RawGoesOn(body, rest);
    StaysInRaw(rest);
    OpenedRaw(body + "`" + rest);
    Associative("`", body, "`");
    Associative("`", body + "`", rest);
  }

  lemma RawThenComment(body: string, comment: string)
    requires '`' !in body && '\n' !in comment
    ensures IsGoSource([Raw(body), LineComment(comment)])
  {
    var ls := [Raw(body), LineComment(comment)];
    assert ls[1..] == [ls[1]] && [ls[1]][1..] == [];
    assert IsGoSource([ls[1]]);
  }

  /** Where the condition fails: a comment after such a raw string stays. */
  lemma RawBackslashHidesComment(body: string, comment: string)
    requires '`' !in body && TrailingBackslashes(body) % 2 == 1
    requires forall c :: c in comment ==> c !in {'\n', '`', '\\'}
    ensures var ls := [Raw(body), LineComment(comment)];
            IsGoSource(ls) && Stripped(Code, Text(ls), true) == Text(ls) && KeptText(ls, true) != Text(ls)
  {
    var raw, line := Raw(body), LineComment(comment);
    RawThenComment(body, comment);
    TextOfTwo(raw, line, true);
    RawIsEscaped(body);
    RawHidesText(body, "//" + comment);
    Differ(Source(raw), "//" + comment, "  " + Blanks(comment));
  }

  lemma Differ(a: string, x: string, y: string)
    requires x != [] && y != [] && x[0] != y[0]
    ensures a + x != a + y
  {
    assert (a + x)[|a|] == x[0] && (a + y)[|a|] == y[0];
  }
}

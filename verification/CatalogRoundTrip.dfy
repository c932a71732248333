/** Reading back what was rendered: exactly when it gives the same header and the same table. */
module CatalogRoundTrip {
  import opened Sequences
  import opened Wrappers
  import opened StringOrder
  import opened Catalog

  // ---------------------------------------------------------------------------------------
  // The rendered text, line by line

  function ValueLines(key: string, v: string): (ls: seq<string>)
    ensures ls != []
  {
    if IsRaw(v) then ["  '" + key + "': `"] + Split(v) + ["`"] else ["  '" + key + "': '" + Escaped(v) + "'"]
  }

  function EntryLines(keys: seq<string>, entries: map<string, string>): seq<string>
    requires forall k :: k in keys ==> k in entries
  {
    if keys == [] then [] else ValueLines(keys[0], entries[keys[0]]) + EntryLines(keys[1..], entries)
  }

  lemma ValueLinesText(key: string, v: string)
    ensures Join(ValueLines(key, v)) == EntryText(key, v)
  {
    if IsRaw(v) {
      JoinSplit(v);
      JoinConcat(["  '" + key + "': `"], Split(v) + ["`"]);
      JoinConcat(Split(v), ["`"]);
      assert ValueLines(key, v) == ["  '" + key + "': `"] + (Split(v) + ["`"]);
      assert ("  '" + key + "': `") + "\n" + (v + "\n" + "`") == "  '" + key + "': " + ("`\n" + v + "\n`");
    } else {
      assert "  '" + key + "': '" + Escaped(v) + "'" == "  '" + key + "': " + ("'" + Escaped(v) + "'");
    }
  }

  lemma ValueLinesSingle(key: string, v: string)
    requires '\n' !in key
    ensures forall l :: l in ValueLines(key, v) ==> '\n' !in l
  {
    EscapedOnOneLine(v);
  }

  lemma {:induction false} EntryLinesText(keys: seq<string>, entries: map<string, string>, tail: seq<string>)
    requires forall k :: k in keys ==> k in entries
    requires tail != []
    ensures Join(EntryTexts(keys, entries) + tail) == Join(EntryLines(keys, entries) + tail)
  {
    var texts, lines := EntryTexts(keys, entries), EntryLines(keys, entries);
    if keys == [] {
      assert texts + tail == tail == lines + tail;
    } else {
      var k := keys[0];
      var texts', lines' := EntryTexts(keys[1..], entries) + tail, EntryLines(keys[1..], entries) + tail;
      EntryLinesText(keys[1..], entries, tail);
      ValueLinesText(k, entries[k]);
      Associative([EntryText(k, entries[k])], EntryTexts(keys[1..], entries), tail);
      Associative(ValueLines(k, entries[k]), EntryLines(keys[1..], entries), tail);
      JoinConcat([EntryText(k, entries[k])], texts');
      JoinConcat(ValueLines(k, entries[k]), lines');
    }
  }

  /** All lines of the rendered text; the last one is empty. */
  function AllLines(header: seq<string>, keys: seq<string>, entries: map<string, string>): seq<string>
    requires forall k :: k in keys ==> k in entries
  {
    header + (EntryLines(keys, entries) + ["}", ""])
  }

  lemma RenderedLines(header: seq<string>, keys: seq<string>, entries: map<string, string>)
    requires forall k :: k in keys ==> k in entries && '\n' !in k
    requires forall h :: h in header ==> '\n' !in h
    ensures Split(Rendered(header, keys, entries)) == AllLines(header, keys, entries)
  {
    var all := AllLines(header, keys, entries);
    var lines := EntryLines(keys, entries);
    RenderedText(header, keys, entries);
    JoinConcat(header + lines + ["}"], [""]);
    assert header + lines + ["}"] + [""] == all;
    assert Rendered(header, keys, entries) == Join(all);
    EntryLinesSingle(keys, entries);
    SplitJoin(all);
  }

  lemma RenderedText(header: seq<string>, keys: seq<string>, entries: map<string, string>)
    requires forall k :: k in keys ==> k in entries
    ensures Join(header + EntryTexts(keys, entries) + ["}"]) == Join(header + EntryLines(keys, entries) + ["}"])
  {
    var texts, lines := EntryTexts(keys, entries), EntryLines(keys, entries);
    EntryLinesText(keys, entries, ["}"]);
    Associative(header, texts, ["}"]);
    Associative(header, lines, ["}"]);
    if header != [] {
      JoinConcat(header, texts + ["}"]);
      JoinConcat(header, lines + ["}"]);
    } else {
      assert header + (texts + ["}"]) == texts + ["}"];
      assert header + (lines + ["}"]) == lines + ["}"];
    }
  }

  lemma {:induction false} EntryLinesSingle(keys: seq<string>, entries: map<string, string>)
    requires forall k :: k in keys ==> k in entries && '\n' !in k
    ensures forall l :: l in EntryLines(keys, entries) ==> '\n' !in l
  {
    if keys != [] {
      ValueLinesSingle(keys[0], entries[keys[0]]);
      EntryLinesSingle(keys[1..], entries);
    }
  }

  // ---------------------------------------------------------------------------------------
  // Reading well-behaved lines

  /** No line of a value written as a raw block would close the block early. */
  ghost predicate RawBlockHolds(v: string)
  {
    IsRaw(v) ==> forall l :: l in Split(v) ==> !IsRawEnd(l)
  }

  lemma {:induction false} RawLengthOf(body: seq<string>, end: string, rest: seq<string>)
    requires (forall l :: l in body ==> !IsRawEnd(l)) && IsRawEnd(end)
    ensures RawLength(body + [end] + rest) == |body|
  {
    var ls := body + [end] + rest;
    if body == [] {
      assert ls[0] == end;
    } else {
      assert ls[0] == body[0];
      assert ls[1..] == body[1..] + [end] + rest;
      RawLengthOf(body[1..], end, rest);
    }
  }

  /** The block that starts with the first line and closes with `end`. */
  lemma ReadBlock(start: string, body: seq<string>, end: string, rest: seq<string>, header: seq<string>,
                  entries: map<string, string>)
    requires MatchEntry(start).None? && MatchRawStart(start).Some?
    requires (forall l :: l in body ==> !IsRawEnd(l)) && IsRawEnd(end)
    ensures ReadLines([start] + body + [end] + rest, header, entries) ==
      ReadLines(rest, header, entries[MatchRawStart(start).value := JoinAny(body)])
  {
    var ls := [start] + body + [end] + rest;
    var n := |body|;
    assert ls[1..] == body + [end] + rest;
    RawLengthOf(body, end, rest);
    assert ls[1..1 + n] == body;
    assert ls[1 + n..] == [end] + rest;
    assert ([end] + rest)[1..] == rest;
  }

  lemma StartLines(key: string, text: string)
    requires IsKey(key)
    ensures MatchEntry("  '" + key + "': '" + text + "'") == Some((key, text))
    ensures MatchEntry("  '" + key + "': `").None? && MatchRawStart("  '" + key + "': `") == Some(key)
  {
    var line := "  '" + key + "': '" + text + "'";
    assert AllSpace("  ") && AllSpace(" ") && AllSpace("");
    assert line == "  " + "'" + key + "':" + " " + "'" + text + "'" + "";
    EntryIffPattern(line, key, text);
    var raw := "  '" + key + "': `";
    assert raw == "  " + "'" + key + "':" + " " + "`" + "";
    RawStartIffPattern(raw, key);
  }

  lemma ReadEntry(key: string, v: string, rest: seq<string>, header: seq<string>, entries: map<string, string>)
    requires IsKey(key) && RawBlockHolds(v)
    ensures ReadLines(ValueLines(key, v) + rest, header, entries) == ReadLines(rest, header, entries[key := v])
  {
    StartLines(key, Escaped(v));
    var start := "  '" + key + "': `";
    if IsRaw(v) {
      JoinSplit(v);
      assert IsRawEnd("`");
      assert ValueLines(key, v) + rest == [start] + Split(v) + ["`"] + rest;
      ReadBlock(start, Split(v), "`", rest, header, entries);
    } else {
      UnescapeEscape(v);
      assert (ValueLines(key, v) + rest)[1..] == rest;
    }
  }

  ghost function Chosen(keys: seq<string>, entries: map<string, string>): (m: map<string, string>)
    requires forall k :: k in keys ==> k in entries
  {
    map k | k in keys :: entries[k]
  }

  lemma {:induction false} ReadEntries(keys: seq<string>, entries: map<string, string>, rest: seq<string>,
                                       header: seq<string>, acc: map<string, string>)
    requires forall k :: k in keys ==> k in entries && IsKey(k) && RawBlockHolds(entries[k])
    ensures ReadLines(EntryLines(keys, entries) + rest, header, acc)
         == ReadLines(rest, header, acc + Chosen(keys, entries))
  {
    if keys == [] {
      assert EntryLines(keys, entries) + rest == rest;
      assert acc + Chosen(keys, entries) == acc;
    } else {
      var k, v := keys[0], entries[keys[0]];
      var lines := EntryLines(keys[1..], entries);
      Associative(ValueLines(k, v), lines, rest);
      ReadEntry(k, v, lines + rest, header, acc);
      ReadEntries(keys[1..], entries, rest, header, acc[k := v]);
      ChosenFirst(keys, entries, acc);
    }
  }

  lemma ChosenFirst(keys: seq<string>, entries: map<string, string>, acc: map<string, string>)
    requires keys != [] && forall k :: k in keys ==> k in entries
    ensures acc[keys[0] := entries[keys[0]]] + Chosen(keys[1..], entries) == acc + Chosen(keys, entries)
  {
    assert forall k :: k in keys <==> k == keys[0] || k in keys[1..];
  }

  lemma {:induction false} ReadHeader(hs: seq<string>, rest: seq<string>, header: seq<string>)
    requires forall h :: h in hs ==> !IsStart(h)
    ensures ReadLines(hs + rest, header, map[]) == ReadLines(rest, header + hs, map[])
  {
    if hs == [] {
      assert hs + rest == rest && header + hs == header;
    } else {
      assert (hs + rest)[1..] == hs[1..] + rest;
      assert hs[0] in hs;
      ReadHeader(hs[1..], rest, header + [hs[0]]);
      assert header + [hs[0]] + hs[1..] == header + hs;
    }
  }

  lemma ReadClosing(header: seq<string>, entries: map<string, string>)
    ensures ReadLines(["}", ""], header, entries)
         == (if entries == map[] then header + ["}", ""] else header, entries)
  {
    assert !IsStart("}") && !IsStart("");
    assert ["}", ""][1..] == [""] && [""][1..] == [];
    assert header + ["}"] + [""] == header + ["}", ""];
  }

  // ---------------------------------------------------------------------------------------
  // What reading can produce at all

  /** A header never holds a line that starts an entry, and every key has the form of a key. */
  lemma {:induction false} ReadShape(lines: seq<string>, header: seq<string>, entries: map<string, string>)
    requires forall l :: l in lines ==> '\n' !in l
    requires forall h :: h in header ==> '\n' !in h && !IsStart(h)
    requires forall k :: k in entries ==> IsKey(k)
    ensures forall h :: h in ReadLines(lines, header, entries).0 ==> '\n' !in h && !IsStart(h)
    ensures forall k :: k in ReadLines(lines, header, entries).1 ==> IsKey(k)
    decreases |lines|
  {
    if lines != [] {
      assert lines[0] in lines;
      if MatchKey(lines[0]).Some? {
        KeyShape(lines[0]);
      }
      if MatchEntry(lines[0]).Some? {
        var (key, text) := MatchEntry(lines[0]).value;
        ReadShape(lines[1..], header, entries[key := Unescaped(text)]);
      } else if MatchRawStart(lines[0]).Some? {
        var n := RawLength(lines[1..]);
        var rest := lines[1 + n..];
        ReadShape(if rest == [] then [] else rest[1..], header,
                  entries[MatchRawStart(lines[0]).value := JoinAny(lines[1..1 + n])]);
      } else {
        ReadShape(lines[1..], if entries == map[] then header + [lines[0]] else header, entries);
      }
    }
  }

  lemma KeyShape(line: string)
    requires MatchKey(line).Some? && '\n' !in line
    ensures IsKey(MatchKey(line).value.0)
  {
    var a, b := MatchKeyParts(line);
    var (key, v) := MatchKey(line).value;
    assert forall i :: 0 <= i < |key| ==> line[|a| + 1 + i] == key[i];
  }

  /** Reading on past a closing backtick: whatever stands before it, the reader is outside any
      block behind it, and every value it took up is no longer than the text it came from. */
  lemma {:induction false} PastBacktick(lines: seq<string>, rest: seq<string>, header: seq<string>,
                                        acc: map<string, string>) returns (acc': map<string, string>)
    requires acc != map[]
    ensures acc' != map[]
    ensures ReadLines(lines + ["`"] + rest, header, acc) == ReadLines(rest, header, acc')
    ensures Updated(acc, acc', |JoinAny(lines)|)
    decreases |lines|
  {
    var after := ["`"] + rest;
    assert lines + ["`"] + rest == lines + after;
    if lines == [] {
      assert !IsStart("`");
      assert lines + after == after && after[1..] == rest;
      acc' := acc;
    } else if MatchEntry(lines[0]).Some? {
      assert (lines + after)[1..] == lines[1..] + ["`"] + rest;
      var (key, text) := MatchEntry(lines[0]).value;
      EntryIffPattern(lines[0], key, text);
      JoinPart(lines, 0, 1);
      assert lines[0..1] == [lines[0]];
      JoinRest(lines, 1);
      acc' := PastBacktick(lines[1..], rest, header, acc[key := Unescaped(text)]);
    } else if MatchRawStart(lines[0]).Some? {
      var n, acc1 := ReadInnerBlock(lines, rest, header, acc);
      if n <= |lines| {
        JoinRest(lines, n);
        acc' := PastBacktick(lines[n..], rest, header, acc1);
      } else {
        acc' := acc1;
      }
    } else {
      assert (lines + after)[1..] == lines[1..] + ["`"] + rest;
      JoinRest(lines, 1);
      acc' := PastBacktick(lines[1..], rest, header, acc);
    }
  }

  /** acc' is acc with some keys set to values of at most the given length. */
  ghost predicate Updated(acc: map<string, string>, acc': map<string, string>, length: nat)
  {
    && (forall k :: k in acc ==> k in acc')
    && (forall k :: k in acc' ==> (k in acc && acc'[k] == acc[k]) || |acc'[k]| <= length)
  }

  /** A block that opens in the first line: it closes at one of the lines, n is what follows, or
      at the backtick behind them all, and then n is beyond their number. */
  lemma ReadInnerBlock(lines: seq<string>, rest: seq<string>, header: seq<string>, acc: map<string, string>)
    returns (n: nat, acc1: map<string, string>)
    requires lines != [] && MatchEntry(lines[0]).None? && MatchRawStart(lines[0]).Some?
    ensures acc1 != map[] && Updated(acc, acc1, |JoinAny(lines)|)
    ensures 0 < n <= |lines| + 1
    ensures n <= |lines|
        ==> ReadLines(lines + ["`"] + rest, header, acc) == ReadLines(lines[n..] + ["`"] + rest, header, acc1)
    ensures n > |lines| ==> ReadLines(lines + ["`"] + rest, header, acc) == ReadLines(rest, header, acc1)
  {
    var tail := lines[1..];
    var m := RawLength(tail);
    JoinPart(lines, 1, 1 + m);
    assert lines[1..1 + m] == tail[..m];
    var key := MatchRawStart(lines[0]).value;
    acc1 := acc[key := JoinAny(tail[..m])];
    assert key in acc1;
    n := m + 2;
    if m < |tail| {
      InnerBlockCloses(lines, rest, header, acc, m);
    } else {
      assert tail[..m] == tail;
      InnerBlockRunsOn(lines, rest, header, acc);
    }
  }

  lemma InnerBlockCloses(lines: seq<string>, rest: seq<string>, header: seq<string>, acc: map<string, string>, m: nat)
    requires lines != [] && MatchEntry(lines[0]).None? && MatchRawStart(lines[0]).Some?
    requires m == RawLength(lines[1..]) && m + 1 < |lines|
    ensures ReadLines(lines + ["`"] + rest, header, acc)
         == ReadLines(lines[m + 2..] + ["`"] + rest, header,
                      acc[MatchRawStart(lines[0]).value := JoinAny(lines[1..][..m])])
  {
    var l, tail, after := lines[0], lines[1..], ["`"] + rest;
    HeadAndTail(lines);
    Associative(lines, ["`"], rest);
    assert lines[m + 2..] == tail[m + 1..];
    Around(l, tail, m, after);
    ReadBlock(l, tail[..m], tail[m], lines[m + 2..] + after, header, acc);
    Associative(lines[m + 2..], ["`"], rest);
  }

  lemma InnerBlockRunsOn(lines: seq<string>, rest: seq<string>, header: seq<string>, acc: map<string, string>)
    requires lines != [] && MatchEntry(lines[0]).None? && MatchRawStart(lines[0]).Some?
    requires RawLength(lines[1..]) == |lines| - 1
    ensures ReadLines(lines + ["`"] + rest, header, acc)
         == ReadLines(rest, header, acc[MatchRawStart(lines[0]).value := JoinAny(lines[1..])])
  {
    HeadAndTail(lines);
    assert IsRawEnd("`");
    ReadBlock(lines[0], lines[1..], "`", rest, header, acc);
  }

  /** Part of the lines has at most the text of all of them, and strictly less of it when some
      line is left out. */
  lemma {:induction false} JoinPart(ls: seq<string>, i: nat, j: nat)
    requires i <= j <= |ls|
    ensures |JoinAny(ls[i..j])| <= |JoinAny(ls)|
    ensures j - i < |ls| && |ls| > 1 ==> |JoinAny(ls[i..j])| < |JoinAny(ls)|
  {
    var part := ls[i..j];
    if part != [] && part != ls {
      assert ls == ls[..i] + (part + ls[j..]);
      if j < |ls| {
        JoinConcat(part, ls[j..]);
      } else {
        assert part + ls[j..] == part;
      }
      if i > 0 {
        JoinConcat(ls[..i], part + ls[j..]);
      } else {
        assert ls[..i] + (part + ls[j..]) == part + ls[j..];
      }
    } else if part == [] && |ls| > 1 {
      JoinConcat(ls[..1], ls[1..]);
      assert ls == ls[..1] + ls[1..];
    }
  }

  lemma JoinRest(ls: seq<string>, i: nat)
    requires i <= |ls|
    ensures |JoinAny(ls[i..])| <= |JoinAny(ls)|
    ensures i > 0 && |ls| > 1 ==> |JoinAny(ls[i..])| < |JoinAny(ls)|
  {
    assert ls[i..] == ls[i..|ls|];
    JoinPart(ls, i, |ls|);
  }

  lemma Around<T>(first: T, ls: seq<T>, m: nat, after: seq<T>)
    requires m < |ls|
    ensures [first] + ls + after == [first] + ls[..m] + [ls[m]] + (ls[m + 1..] + after)
  {
    assert ls == ls[..m] + [ls[m]] + ls[m + 1..];
  }

  /** A raw value one of whose lines closes its block early comes back as another value. */
  lemma ReadBrokenEntry(key: string, v: string, rest: seq<string>, header: seq<string>, acc: map<string, string>)
    returns (acc': map<string, string>)
    requires IsKey(key) && !RawBlockHolds(v)
    ensures acc' != map[]
    ensures ReadLines(ValueLines(key, v) + rest, header, acc) == ReadLines(rest, header, acc')
    ensures key in acc' && acc'[key] != v
  {
    StartLines(key, "");
    JoinSplit(v);
    var ls := Split(v);
    var l :| l in ls && IsRawEnd(l);
    var n, acc1 := ReadTruncated(key, v, rest, header, acc);
    JoinRest(ls, n);
    acc' := PastBacktick(ls[n..], rest, header, acc1);
  }

  lemma EndsEarly(ls: seq<string>)
    requires exists l :: l in ls && IsRawEnd(l)
    ensures RawLength(ls) < |ls|
  {
    var l :| l in ls && IsRawEnd(l);
    var i :| 0 <= i < |ls| && ls[i] == l;
  }

  /** The block of a broken value ends at the first line that closes it, before the last. */
  lemma ReadTruncated(key: string, v: string, rest: seq<string>, header: seq<string>, acc: map<string, string>)
    returns (n: nat, acc1: map<string, string>)
    requires IsKey(key) && IsRaw(v) && exists l :: l in Split(v) && IsRawEnd(l)
    ensures 0 < n <= |Split(v)|
    ensures key in acc1 && |acc1[key]| < |v|
    ensures ReadLines(ValueLines(key, v) + rest, header, acc)
         == ReadLines(Split(v)[n..] + ["`"] + rest, header, acc1)
  {
    StartLines(key, "");
    JoinSplit(v);
    var start, ls := "  '" + key + "': `", Split(v);
    var m := RawLength(ls);
    EndsEarly(ls);
    n := m + 1;
    var body := ls[..m];
    var after := ["`"] + rest;
    Associative([start] + ls, ["`"], rest);
    Around(start, ls, m, after);
    ReadBlock(start, body, ls[m], ls[n..] + after, header, acc);
    Associative(ls[n..], ["`"], rest);
    acc1 := acc[key := JoinAny(body)];
    JoinPart(ls, 0, m);
    assert ls[0..m] == body;
  }

  /** When some value is broken in this way, some value comes back changed: later entries can
      repair none but their own keys. */
  lemma {:induction false} ReadBrokenEntries(keys: seq<string>, entries: map<string, string>, rest: seq<string>,
                                             header: seq<string>, acc: map<string, string>)
    returns (acc': map<string, string>)
    requires Distinct(keys)
    requires forall k :: k in keys ==> k in entries && IsKey(k)
    requires exists k :: k in keys && !RawBlockHolds(entries[k])
    ensures ReadLines(EntryLines(keys, entries) + rest, header, acc) == ReadLines(rest, header, acc')
    ensures acc' != map[] && exists k :: k in keys && k in acc' && acc'[k] != entries[k]
  {
    var k, v, keys' := keys[0], entries[keys[0]], keys[1..];
    var tail := EntryLines(keys', entries) + rest;
    assert EntryLines(keys, entries) + rest == ValueLines(k, v) + tail;
    if !RawBlockHolds(v) {
      acc' := ReadBrokenEntry(k, v, tail, header, acc);
    } else {
      ReadEntry(k, v, tail, header, acc);
      acc' := acc[k := v];
    }
    if exists x :: x in keys' && !RawBlockHolds(entries[x]) {
      acc' := ReadBrokenEntries(keys', entries, rest, header, acc');
    } else {
      ReadEntries(keys', entries, rest, header, acc');
      assert k !in Chosen(keys', entries);
      acc' := acc' + Chosen(keys', entries);
      assert k in acc' && acc'[k] != entries[k];
    }
  }

  // ---------------------------------------------------------------------------------------
  // The round trip

  /** What a header and a table must be like for their text to be read back. */
  ghost predicate Readable(header: seq<string>, entries: map<string, string>)
  {
    && entries != map[]
    && (forall h :: h in header ==> '\n' !in h && !IsStart(h))
    && (forall k :: k in entries ==> IsKey(k) && RawBlockHolds(entries[k]))
  }

  ghost function Text(header: seq<string>, entries: map<string, string>): string
  {
    Rendered(header, Sorted(entries.Keys), entries)
  }

  /** Reading the rendered text gives back the same header and the same table if and only if
      they are readable. */
  lemma RoundTrip(header: seq<string>, entries: map<string, string>)
    ensures Read(Text(header, entries)) == (header, entries) <==> Readable(header, entries)
  {
    var keys := Sorted(entries.Keys);
    assert forall k :: k in keys <==> k in entries;
    if Readable(header, entries) {
      ReadBack(header, keys, entries);
    }
    if Read(Text(header, entries)) == (header, entries) {
      ReadShape(Split(Text(header, entries)), [], map[]);
      assert Distinct(keys) by {
        forall i, j | 0 <= i < j < |keys|
          ensures keys[i] != keys[j]
        {
          LessIrreflexive(keys[i]);
        }
      }
      OnlyReadable(header, keys, entries);
    }
  }

  lemma ReadBack(header: seq<string>, keys: seq<string>, entries: map<string, string>)
    requires Readable(header, entries)
    requires forall k :: k in keys <==> k in entries
    ensures Read(Rendered(header, keys, entries)) == (header, entries)
  {
    var closing := ["}", ""];
    RenderedLines(header, keys, entries);
    ReadHeader(header, EntryLines(keys, entries) + closing, []);
    assert [] + header == header;
    ReadEntries(keys, entries, closing, header, map[]);
    ChosenAll(keys, entries);
    ReadClosing(header, entries);
  }

  lemma ChosenAll(keys: seq<string>, entries: map<string, string>)
    requires forall k :: k in keys <==> k in entries
    ensures map[] + Chosen(keys, entries) == entries
  {
  }

  lemma OnlyReadable(header: seq<string>, keys: seq<string>, entries: map<string, string>)
    requires forall k :: k in keys <==> k in entries
    requires Distinct(keys)
    requires forall h :: h in header ==> '\n' !in h && !IsStart(h)
    requires forall k :: k in entries ==> IsKey(k)
    requires Read(Rendered(header, keys, entries)) == (header, entries)
    ensures Readable(header, entries)
  {
    RenderedLines(header, keys, entries);
    var tail := EntryLines(keys, entries) + ["}", ""];
    ReadHeader(header, tail, []);
    assert [] + header == header;
    if keys == [] {
      assert tail == ["}", ""];
      ReadClosing(header, map[]);
    } else if exists k :: k in keys && !RawBlockHolds(entries[k]) {
      var acc := ReadBrokenEntries(keys, entries, ["}", ""], header, map[]);
      ReadClosing(header, acc);
    } else {
      assert keys[0] in entries;
    }
  }

  /** A second rendering of what was read is the same text. */
  lemma RenderedAgain(header: seq<string>, entries: map<string, string>)
    requires Readable(header, entries)
    ensures var (header', entries') := Read(Text(header, entries));
      Text(header', entries') == Text(header, entries)
  {
    RoundTrip(header, entries);
  }

  /** The fallback to the quoted notation covers every value whose blanks are spaces, tabs and
      carriage returns. */
  lemma OrdinaryBlanksHold(v: string)
    requires forall l, i :: l in Split(v) && 0 <= i < |l| && IsSpace(l[i]) ==> l[i] in {' ', '\t', '\r'}
    ensures RawBlockHolds(v)
  {
    forall l | l in Split(v) && IsRawEnd(l)
      ensures !RawSafe(v)
    {
      SameBlanks(l);
      var c := StripRightParts(StripLeft(l));
    }
  }

  lemma {:induction false} SameBlanks(l: string)
    requires forall i :: 0 <= i < |l| && IsSpace(l[i]) ==> l[i] in {' ', '\t', '\r'}
    ensures StripBlanks(l) == StripLeft(l)
  {
    if l != [] && IsSpace(l[0]) {
      SameBlanks(l[1..]);
    }
  }

  /** Other blanks are not covered: a vertical tab before a backtick passes for safe. */
  lemma VerticalTabBreaks()
    ensures var v := "a\n\U{B}`"; IsRaw(v) && !RawBlockHolds(v)
  {
    var v := "a\n\U{B}`";
    SplitLine("\U{B}`");
    SplitBreak("a", "\U{B}`");
    assert v == "a" + "\n" + "\U{B}`";
    assert Split(v) == ["a", "\U{B}`"];
    assert v[1] == '\n';
    assert StripLeft("\U{B}`") == "`" && StripRight("`") == "`";
    assert IsRawEnd(Split(v)[1]);
  }
}

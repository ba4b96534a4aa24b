/**
 The lines of a JSONL response file (lib/report/jsonl_response_store.py): records,
 what a save appends, and what a reader gets back.

 The serialised metadata of a record is given as bytes.
 */
module JsonLines {
  import opened Wrappers
  import opened ByteStrings
  import opened Base64

  const QUOTE: Byte := 34
  const BRACE: Byte := 125

  /** The metadata up to and including the quote that opens the body. */
  datatype Entry = Entry(prefix: Bytes, body: Bytes)

  /** JSON escapes newlines, and the prefix ends with the body's opening quote. */
  predicate WellFormed(e: Entry) {
    LF !in e.prefix && e.prefix != [] && e.prefix[|e.prefix| - 1] == QUOTE
  }

  function RecordLine(e: Entry): Bytes {
    e.prefix + Encode(e.body) + [QUOTE, BRACE]
  }

  /** The lines the entries are due. */
  function RecordLines(entries: seq<Entry>): seq<Bytes> {
    seq(|entries|, i requires 0 <= i < |entries| => RecordLine(entries[i]))
  }

  /** Every line followed by a newline. */
  function Terminated(lines: seq<Bytes>): Bytes {
    if lines == [] then [] else Terminated(lines[..|lines| - 1]) + lines[|lines| - 1] + [LF]
  }

  predicate NeedsSeparator(s: Bytes) {
    s != [] && s[|s| - 1] != LF
  }

  function Separator(s: Bytes): Bytes {
    if NeedsSeparator(s) then [LF] else []
  }

  /** What the file holds when exactly these entries were saved after the initial content. */
  function Layout(initial: Bytes, entries: seq<Entry>): Bytes {
    if entries == [] then initial else initial + Separator(initial) + Terminated(RecordLines(entries))
  }

  lemma TerminatedAppend(lines: seq<Bytes>, line: Bytes)
    ensures Terminated(lines + [line]) == Terminated(lines) + (line + [LF])
  {
    assert (lines + [line])[..|lines|] == lines;
    Assoc(Terminated(lines), line, [LF]);
  }

  /** What a save adds: a separator if the file needs one, the record and a newline. */
  function Appended(separate: bool, e: Entry): Bytes {
    (if separate then [LF] else []) + (RecordLine(e) + [LF])
  }

  lemma LayoutAppend(initial: Bytes, entries: seq<Entry>, e: Entry)
    ensures Layout(initial, entries + [e]) ==
            Layout(initial, entries) + Appended(entries == [] && NeedsSeparator(initial), e)
  {
    var head, lines, added := initial + Separator(initial), RecordLines(entries), RecordLine(e) + [LF];
    assert RecordLines(entries + [e]) == lines + [RecordLine(e)];
    TerminatedAppend(lines, RecordLine(e));
    Assoc(head, Terminated(lines), added);
    if entries == [] {
      assert Terminated(lines) == [] && head + [] == head;
      Assoc(initial, Separator(initial), added);
    } else {
      assert [] + added == added;
    }
  }

  // ------------------------------------------------------------- reading it back

  /** The lines of a text given those of the text after its first byte. */
  function ConsLine(c: Byte, rest: seq<Bytes>): (lines: seq<Bytes>)
    ensures lines != []
  {
    if c == LF then [[]] + rest else if rest == [] then [[c]] else [[c] + rest[0]] + rest[1..]
  }

  /** The lines of a file without their newlines; a last line may lack one. */
  function Lines(s: Bytes): (lines: seq<Bytes>)
    ensures s != [] ==> lines != []
  {
    if s == [] then [] else ConsLine(s[0], Lines(s[1..]))
  }

  lemma {:induction false} FirstLine(line: Bytes, rest: Bytes)
    requires 10 !in line
    ensures Lines(line + [10] + rest) == [line] + Lines(rest)
  {
    var s := line + [LF] + rest;
    if line == [] {
      assert s[1..] == rest;
    } else {
      assert s[1..] == line[1..] + [LF] + rest;
      FirstLine(line[1..], rest);
      assert [line[0]] + line[1..] == line;
    }
  }

  /** A text without a newline is one line, or none when it is empty. */
  lemma {:induction false} LastLine(line: Bytes)
    requires 10 !in line
    ensures Lines(line) == if line == [] then [] else [line]
  {
    if line != [] {
      LastLine(line[1..]);
      assert [line[0]] + line[1..] == line && line[0] != LF;
      if |line| == 1 {
        assert line[1..] == [] && line == [line[0]];
        assert Lines(line[1..]) == [];
      }
    }
  }

  /** A terminated text and what follows it have separate lines. */
  lemma {:induction false} LinesConcat(s: Bytes, rest: Bytes)
    requires s == [] || s[|s| - 1] == LF
    ensures Lines(s + rest) == Lines(s) + Lines(rest)
  {
    if s == [] {
      assert s + rest == rest;
    } else if |s| > 1 {
      assert (s + rest)[1..] == s[1..] + rest;
      LinesConcat(s[1..], rest);
    } else {
      assert s == [LF] && (s + rest)[1..] == rest;
    }
  }

  lemma {:induction false} SeparatorAddsNoLine(s: Bytes)
    ensures Lines(s + Separator(s)) == Lines(s)
  {
    if NeedsSeparator(s) {
      if |s| > 1 {
        assert (s + [LF])[1..] == s[1..] + [LF];
        SeparatorAddsNoLine(s[1..]);
      } else {
        assert s + [LF] == [s[0], LF] && [s[0], LF][1..] == [LF] && [LF][1..] == [];
        assert Lines([]) == [] && Lines([LF]) == [[]] && [s[0]] + [] == [s[0]] == s;
      }
    } else {
      assert s + Separator(s) == s;
    }
  }

  predicate AllWellFormed(entries: seq<Entry>) {
    forall i :: 0 <= i < |entries| ==> WellFormed(entries[i])
  }

  lemma RecordLineHasNoNewline(e: Entry)
    requires WellFormed(e)
    ensures LF !in RecordLine(e)
  {
    EncodeHasOnlyDigits(e.body);
    assert LF !in Encode(e.body);
  }

  lemma LinesAppend(s: Bytes, line: Bytes)
    requires (s == [] || s[|s| - 1] == LF) && LF !in line
    ensures Lines(s + (line + [LF])) == Lines(s) + [line]
  {
    FirstLine(line, []);
    assert line + [LF] + [] == line + [LF];
    LinesConcat(s, line + [LF]);
  }

  lemma TerminatedEnd(lines: seq<Bytes>)
    ensures Terminated(lines) == [] <==> lines == []
    ensures lines != [] ==> Terminated(lines)[|Terminated(lines)| - 1] == LF
  {
  }

  /** Splitting terminated lines gives the lines back. */
  lemma {:induction false} LinesOfTerminated(lines: seq<Bytes>)
    requires forall i :: 0 <= i < |lines| ==> LF !in lines[i]
    ensures Lines(Terminated(lines)) == lines
  {
    if lines != [] {
      var before, last := lines[..|lines| - 1], lines[|lines| - 1];
      LinesOfTerminated(before);
      TerminatedEnd(before);
      assert before + [last] == lines;
      TerminatedAppend(before, last);
      LinesAppend(Terminated(before), last);
    }
  }

  /** One line per saved record, after the lines that were there before. */
  lemma LinesOfLayout(initial: Bytes, entries: seq<Entry>)
    requires AllWellFormed(entries)
    ensures Lines(Layout(initial, entries)) == Lines(initial) + RecordLines(entries)
  {
    if entries != [] {
      var head, lines := initial + Separator(initial), RecordLines(entries);
      forall i | 0 <= i < |lines|
        ensures LF !in lines[i]
      {
        RecordLineHasNoNewline(entries[i]);
      }
      SeparatorAddsNoLine(initial);
      LinesOfTerminated(lines);
      LinesConcat(head, Terminated(lines));
    }
  }

  lemma {:induction false} TerminatedConcat(earlier: seq<Bytes>, later: seq<Bytes>)
    ensures Terminated(earlier + later) == Terminated(earlier) + Terminated(later)
  {
    if later == [] {
      assert earlier + later == earlier;
    } else {
      var before, last := later[..|later| - 1], later[|later| - 1];
      assert before + [last] == later && earlier + later == earlier + before + [last];
      TerminatedConcat(earlier, before);
      TerminatedAppend(before, last);
      TerminatedAppend(earlier + before, last);
      Assoc(Terminated(earlier), Terminated(before), last + [LF]);
    }
  }

  lemma LayoutEnd(initial: Bytes, entries: seq<Entry>)
    ensures NeedsSeparator(Layout(initial, entries)) <==> entries == [] && NeedsSeparator(initial)
  {
    if entries != [] {
      TerminatedEnd(RecordLines(entries));
    }
  }

  lemma RecordLinesConcat(earlier: seq<Entry>, later: seq<Entry>)
    ensures RecordLines(earlier + later) == RecordLines(earlier) + RecordLines(later)
  {
  }

  lemma RecordsConcat(earlier: seq<Entry>, later: seq<Entry>)
    ensures Terminated(RecordLines(earlier + later)) == Terminated(RecordLines(earlier)) +
              Terminated(RecordLines(later))
  {
    RecordLinesConcat(earlier, later);
    TerminatedConcat(RecordLines(earlier), RecordLines(later));
  }

  /** Closing and reopening the file between saves leaves no trace in it. */
  lemma LayoutReopened(initial: Bytes, earlier: seq<Entry>, later: seq<Entry>)
    ensures Layout(Layout(initial, earlier), later) == Layout(initial, earlier + later)
  {
    if later == [] {
      assert earlier + later == earlier;
    } else if earlier == [] {
      assert earlier + later == later;
    } else {
      LayoutEnd(initial, earlier);
      RecordsConcat(earlier, later);
      Assoc(initial + Separator(initial), Terminated(RecordLines(earlier)), Terminated(RecordLines(later)));
      assert Layout(initial, earlier) + [] == Layout(initial, earlier);
    }
  }

  /** The body member of a record line: the text between its last two quotes. */
  function BodyText(line: Bytes): Option<Bytes> {
    if |line| < 2 || line[|line| - 2..] != [QUOTE, BRACE] then None else Some(AfterLastQuote(line[..|line| - 2]))
  }

  function AfterLastQuote(s: Bytes): Bytes {
    if s == [] || s[|s| - 1] == QUOTE then [] else AfterLastQuote(s[..|s| - 1]) + [s[|s| - 1]]
  }

  lemma {:induction false} QuotedText(prefix: Bytes, text: Bytes)
    requires prefix != [] && prefix[|prefix| - 1] == QUOTE && QUOTE !in text
    ensures AfterLastQuote(prefix + text) == text
  {
    if text == [] {
      assert prefix + text == prefix;
    } else {
      var n := |text| - 1;
      assert (prefix + text)[..|prefix + text| - 1] == prefix + text[..n];
      QuotedText(prefix, text[..n]);
    }
  }

  /** The line of a saved record gives back its whole body. */
  lemma BodyReadsBack(e: Entry)
    requires WellFormed(e)
    ensures var text := BodyText(RecordLine(e)); text.Some? && Decode(text.value) == Some(e.body)
  {
    var line := RecordLine(e);
    EncodeHasOnlyDigits(e.body);
    assert QUOTE !in Encode(e.body);
    assert line[..|line| - 2] == e.prefix + Encode(e.body);
    QuotedText(e.prefix, Encode(e.body));
    RoundTrip(e.body);
  }

  // ------------------------------------------------------------- wrong separators

  /** Without a separator a record is glued to an unterminated last line. */
  lemma {:induction false} FragmentSwallowsRecord(file: Bytes, line: Bytes)
    requires NeedsSeparator(file) && LF !in line
    ensures var before := Lines(file);
            Lines(file + line + [LF]) == before[..|before| - 1] + [before[|before| - 1] + line]
  {
    var whole := file + line + [LF];
    if |file| == 1 {
      assert file == [file[0]] && whole == [file[0]] + line + [LF] + [];
      FirstLine([file[0]] + line, []);
      assert file[1..] == [] && Lines([]) == [];
    } else {
      assert whole[1..] == file[1..] + line + [LF];
      FragmentSwallowsRecord(file[1..], line);
      SwallowStep(file[0], Lines(file[1..]), line);
    }
  }

  lemma SwallowStep(c: Byte, rest: seq<Bytes>, line: Bytes)
    requires rest != []
    ensures ConsLine(c, rest[..|rest| - 1] + [rest[|rest| - 1] + line]) ==
            var before := ConsLine(c, rest); before[..|before| - 1] + [before[|before| - 1] + line]
  {
    var n := |rest| - 1;
    if c != LF && n == 0 {
      assert [c] + (rest[0] + line) == [c] + rest[0] + line;
    }
  }

  /** Whether a text ends inside a line. */
  function Unterminated(s: Bytes): nat {
    |Separator(s)|
  }

  /** The bytes of lines with their newlines. */
  function Width(lines: seq<Bytes>): nat {
    if lines == [] then 0 else |lines[0]| + 1 + Width(lines[1..])
  }

  lemma ConsWidth(c: Byte, rest: seq<Bytes>)
    ensures Width(ConsLine(c, rest)) == Width(rest) + if c != LF && rest == [] then 2 else 1
  {
    var lines := ConsLine(c, rest);
    if c == LF {
      assert lines[1..] == rest;
    } else if rest != [] {
      assert lines[1..] == rest[1..];
    }
  }

  /** The lines of a text account for all its bytes. */
  lemma {:induction false} LinesWidth(s: Bytes)
    ensures Width(Lines(s)) == |s| + Unterminated(s)
  {
    if s != [] {
      LinesWidth(s[1..]);
      ConsWidth(s[0], Lines(s[1..]));
    }
  }

  lemma {:induction false} WidthConcat(a: seq<Bytes>, b: seq<Bytes>)
    ensures Width(a + b) == Width(a) + Width(b)
  {
    if a == [] {
      assert a + b == b;
    } else {
      assert (a + b)[1..] == a[1..] + b;
      WidthConcat(a[1..], b);
    }
  }

  /** A record appended with or without a separator becomes a line of its own exactly when the separator is right. */
  lemma SeparatorDecides(file: Bytes, separate: bool, line: Bytes)
    requires LF !in line && line != []
    ensures Lines(file + ((if separate then [LF] else []) + (line + [LF]))) == Lines(file) + [line]
            <==> separate == NeedsSeparator(file)
  {
    var sep := if separate then [LF] else [];
    var whole := file + (sep + (line + [LF]));
    if separate == NeedsSeparator(file) {
      SeparatorAddsNoLine(file);
      Assoc(file, sep, line + [LF]);
      LinesAppend(file + Separator(file), line);
    } else {
      LinesWidth(file);
      LinesWidth(whole);
      WidthConcat(Lines(file), [line]);
      assert Width([line]) == |line| + 1 + Width([line][1..]);
    }
  }
}

/**
 Extension recognition: the regular expression EXTENSION_RECOGNITION_REGEX
 (lib/core/settings.py) as Python's re.search reads it, and the hand-written
 recogniser of native/src/wordlist.rs, on ASCII paths.
 */
module ExtensionRegex {
  import opened Wrappers

  type Ascii = c: char | c <= '\U{7F}'

  type Path = seq<Ascii>

  // --------------------------------------------------------- regular expressions

  datatype CharClass = WordChar | Alphanumeric | Exactly(c: char)

  predicate IsAlphanumeric(c: char) {
    'a' <= c <= 'z' || 'A' <= c <= 'Z' || '0' <= c <= '9'
  }

  predicate IsWordCharacter(c: char) {
    IsAlphanumeric(c) || c == '_'
  }

  predicate InClass(cls: CharClass, c: char) {
    match cls
    case WordChar => IsWordCharacter(c)
    case Alphanumeric => IsAlphanumeric(c)
    case Exactly(x) => c == x
  }

  /** Characters, concatenation and bounded or unbounded repetition. */
  datatype Regex =
    | One(cls: CharClass)
    | Then(first: Regex, second: Regex)
    | Repeat(body: Regex, least: nat, most: Option<nat>)

  /** Membership of a whole text in the language of an expression. */
  ghost predicate Matches(r: Regex, s: Path)
    decreases r, 0
  {
    match r
    case One(cls) => |s| == 1 && InClass(cls, s[0])
    case Then(a, b) => exists k :: 0 <= k <= |s| && Matches(a, s[..k]) && Matches(b, s[k..])
    case Repeat(a, least, most) =>
      exists n: nat :: least <= n && (most.None? || n <= most.value) && Power(a, n, s)
  }

  /** n texts of the language one after the other. */
  ghost predicate Power(r: Regex, n: nat, s: Path)
    decreases r, n + 1
  {
    if n == 0 then s == []
    else exists k :: 0 <= k <= |s| && Matches(r, s[..k]) && Power(r, n - 1, s[k..])
  }

  const WORD := Repeat(One(WordChar), 1, None)
  const EXTENSION := Then(One(Exactly('.')), Repeat(One(Alphanumeric), 2, Some(5)))
  const EXTENSIONS := Repeat(EXTENSION, 1, Some(3))
  const TILDE := Repeat(One(Exactly('~')), 0, Some(1))

  /** \w+([.][a-zA-Z0-9]{2,5}){1,3}~? */
  const RECOGNISED := Then(Then(WORD, EXTENSIONS), TILDE)

  /** The positions where $ matches: the end, and before a final newline. */
  predicate AtDollar(path: Path, end: nat) {
    end == |path| || (end + 1 == |path| && path[end] == '\n')
  }

  /** re.search of the expression followed by $: some part that ends there is in the language. */
  ghost predicate Search(r: Regex, path: Path) {
    exists start: nat, end: nat :: start <= end <= |path| && AtDollar(path, end) && Matches(r, path[start..end])
  }

  ghost predicate PythonSearch(path: Path) {
    Search(RECOGNISED, path)
  }

  // ---------------------------------------------------- the hand-written version

  /** str::split('.') */
  function Split(s: Path): (parts: seq<Path>)
    ensures parts != []
  {
    if s == [] then [[]]
    else if s[0] == '.' then [[]] + Split(s[1..])
    else var parts := Split(s[1..]); [[s[0]] + parts[0]] + parts[1..]
  }

  predicate IsWord(part: Path) {
    part != [] && forall i :: 0 <= i < |part| ==> IsWordCharacter(part[i])
  }

  predicate IsExtension(part: Path) {
    2 <= |part| <= 5 && forall i :: 0 <= i < |part| ==> IsAlphanumeric(part[i])
  }

  predicate AllExtensions(parts: seq<Path>) {
    forall i :: 0 <= i < |parts| ==> IsExtension(parts[i])
  }

  predicate TailMatches(tail: Path) {
    var parts := Split(tail);
    2 <= |parts| <= 4 && IsWord(parts[0]) && AllExtensions(parts[1..])
  }

  function StripTilde(path: Path): Path {
    if path != [] && path[|path| - 1] == '~' then path[..|path| - 1] else path
  }

  predicate Recognises(path: Path) {
    var candidate := StripTilde(path);
    exists start :: 0 <= start < |candidate| && TailMatches(candidate[start..])
  }

  method HasExtensionRecognitionMatch(path: Path) returns (found: bool)
    ensures found <==> Recognises(path)
  {
    var candidate := StripTilde(path);
    for start := 0 to |candidate|
      invariant forall i :: 0 <= i < start ==> !TailMatches(candidate[i..])
    {
      if TailMatches(candidate[start..]) {
        return true;
      }
    }
    return false;
  }

  // ------------------------------------------------------ the shape of a match

  /** ".a1" + ".a2" + … */
  function Dotted(parts: seq<Path>): Path {
    if parts == [] then [] else ['.'] + parts[0] + Dotted(parts[1..])
  }

  /** The first part up to the first dot, and the parts after it. */
  lemma {:induction false} SplitJoins(s: Path)
    ensures s == Split(s)[0] + Dotted(Split(s)[1..])
  {
    if s != [] {
      SplitJoins(s[1..]);
      var parts := Split(s[1..]);
      if s[0] == '.' {
        assert Split(s)[1..] == parts;
        PutBefore(s, ['.'], parts[0], Dotted(parts[1..]));
      } else {
        assert Split(s)[1..] == parts[1..];
        PutBefore(s, [s[0]], parts[0], Dotted(parts[1..]));
      }
    }
  }

  lemma PutBefore(s: Path, first: Path, part: Path, rest: Path)
    requires s != [] && first == [s[0]] && s[1..] == part + rest
    ensures s == first + part + rest && s == [] + s
  {
    assert s == [s[0]] + s[1..];
  }

  lemma {:induction false} SplitOfDotted(head: Path, parts: seq<Path>)
    requires '.' !in head && forall i :: 0 <= i < |parts| ==> '.' !in parts[i]
    ensures Split(head + Dotted(parts)) == [head] + parts
    decreases |parts|, |head|
  {
    var s := head + Dotted(parts);
    if head != [] {
      assert s[0] == head[0] && s[1..] == head[1..] + Dotted(parts);
      SplitOfDotted(head[1..], parts);
      assert [head[0]] + head[1..] == head;
    } else if parts != [] {
      assert s == ['.'] + (parts[0] + Dotted(parts[1..]));
      assert s[1..] == parts[0] + Dotted(parts[1..]);
      SplitOfDotted(parts[0], parts[1..]);
      assert [parts[0]] + parts[1..] == parts;
    } else {
      assert s == [];
    }
  }

  lemma {:induction false} PowerOfClass(cls: CharClass, n: nat, s: Path)
    ensures Power(One(cls), n, s) <==> |s| == n && forall i :: 0 <= i < n ==> InClass(cls, s[i])
  {
    if n > 0 && s != [] {
      PowerOfClass(cls, n - 1, s[1..]);
      assert s[..1] == [s[0]];
      if Power(One(cls), n, s) {
        var k :| 0 <= k <= |s| && Matches(One(cls), s[..k]) && Power(One(cls), n - 1, s[k..]);
        assert k == 1 && s[..k][0] == s[0];
      }
    }
  }

  lemma RepeatCount(r: Regex, s: Path) returns (n: nat)
    requires r.Repeat? && Matches(r, s)
    ensures r.least <= n && (r.most.None? || n <= r.most.value) && Power(r.body, n, s)
  {
    n :| r.least <= n && (r.most.None? || n <= r.most.value) && Power(r.body, n, s);
  }

  lemma RepeatOfClass(cls: CharClass, least: nat, most: Option<nat>, s: Path)
    ensures Matches(Repeat(One(cls), least, most), s) <==>
            least <= |s| && (most.None? || |s| <= most.value) && forall i :: 0 <= i < |s| ==> InClass(cls, s[i])
  {
    PowerOfClass(cls, |s|, s);
    if Matches(Repeat(One(cls), least, most), s) {
      var n := RepeatCount(Repeat(One(cls), least, most), s);
      PowerOfClass(cls, n, s);
    }
  }

  lemma WordShape(s: Path)
    ensures Matches(WORD, s) <==> IsWord(s)
  {
    RepeatOfClass(WordChar, 1, None, s);
  }

  lemma TildeShape(s: Path)
    ensures Matches(TILDE, s) <==> s == [] || s == ['~']
  {
    RepeatOfClass(Exactly('~'), 0, Some(1), s);
  }

  lemma ExtensionShape(s: Path)
    ensures Matches(EXTENSION, s) <==> s != [] && s[0] == '.' && IsExtension(s[1..])
  {
    if s != [] {
      RepeatOfClass(Alphanumeric, 2, Some(5), s[1..]);
      assert s[..1] == [s[0]];
    }
    if Matches(EXTENSION, s) {
      var dot, rest := EXTENSION.first, EXTENSION.second;
      var k :| 0 <= k <= |s| && Matches(dot, s[..k]) && Matches(rest, s[k..]);
      assert k == 1 && s[..k][0] == s[0];
    }
  }

  lemma PowerSplits(r: Regex, n: nat, s: Path) returns (k: nat)
    requires n > 0 && Power(r, n, s)
    ensures k <= |s| && Matches(r, s[..k]) && Power(r, n - 1, s[k..])
  {
    var i :| 0 <= i <= |s| && Matches(r, s[..i]) && Power(r, n - 1, s[i..]);
    k := i;
  }

  lemma DottedFront(s: Path, k: nat, more: seq<Path>)
    requires 0 < k <= |s| && s[0] == '.' && s[k..] == Dotted(more)
    ensures s == Dotted([s[..k][1..]] + more)
  {
    var part := s[..k][1..];
    assert ([part] + more)[1..] == more;
    assert s[..k] == ['.'] + part && s == s[..k] + s[k..];
  }

  lemma {:induction false} PowerPieces(n: nat, s: Path) returns (parts: seq<Path>)
    requires Power(EXTENSION, n, s)
    ensures |parts| == n && AllExtensions(parts) && s == Dotted(parts)
    decreases n
  {
    if n == 0 {
      parts := [];
    } else {
      var k := PowerSplits(EXTENSION, n, s);
      ExtensionShape(s[..k]);
      var more := PowerPieces(n - 1, s[k..]);
      DottedFront(s, k, more);
      parts := [s[..k][1..]] + more;
    }
  }

  lemma {:induction false} PiecesArePower(parts: seq<Path>)
    requires AllExtensions(parts)
    ensures Power(EXTENSION, |parts|, Dotted(parts))
  {
    if parts != [] {
      var s := Dotted(parts);
      var k := 1 + |parts[0]|;
      assert s[..k] == ['.'] + parts[0] && s[..k][1..] == parts[0];
      assert s[k..] == Dotted(parts[1..]);
      ExtensionShape(s[..k]);
      PiecesArePower(parts[1..]);
    }
  }

  lemma PartsHaveNoDot(head: Path, parts: seq<Path>)
    requires IsWord(head) && AllExtensions(parts)
    ensures '.' !in head && forall i :: 0 <= i < |parts| ==> '.' !in parts[i]
  {
  }

  lemma TailMatchIsMatch(tail: Path)
    requires TailMatches(tail)
    ensures Matches(Then(WORD, EXTENSIONS), tail)
  {
    var parts := Split(tail);
    SplitJoins(tail);
    PiecesArePower(parts[1..]);
    WordShape(parts[0]);
    var k := |parts[0]|;
    assert tail[..k] == parts[0] && tail[k..] == Dotted(parts[1..]);
    assert Matches(EXTENSIONS, tail[k..]);
  }

  lemma ThenSplits(r: Regex, s: Path) returns (k: nat)
    requires r.Then? && Matches(r, s)
    ensures k <= |s| && Matches(r.first, s[..k]) && Matches(r.second, s[k..])
  {
    var i :| 0 <= i <= |s| && Matches(r.first, s[..i]) && Matches(r.second, s[i..]);
    k := i;
  }

  lemma PiecesAreTail(tail: Path, k: nat, parts: seq<Path>)
    requires k <= |tail| && IsWord(tail[..k]) && tail[k..] == Dotted(parts)
    requires 1 <= |parts| <= 3 && AllExtensions(parts)
    ensures TailMatches(tail)
  {
    PartsHaveNoDot(tail[..k], parts);
    SplitOfDotted(tail[..k], parts);
    assert tail == tail[..k] + Dotted(parts);
    assert Split(tail)[1..] == parts;
  }

  /** Splitting a tail at its dots decides membership in the expression before ~?. */
  lemma TailIsMatch(tail: Path)
    ensures TailMatches(tail) <==> Matches(Then(WORD, EXTENSIONS), tail)
  {
    if TailMatches(tail) {
      TailMatchIsMatch(tail);
    } else if Matches(Then(WORD, EXTENSIONS), tail) {
      var k := ThenSplits(Then(WORD, EXTENSIONS), tail);
      var n := RepeatCount(EXTENSIONS, tail[k..]);
      WordShape(tail[..k]);
      var parts := PowerPieces(n, tail[k..]);
      PiecesAreTail(tail, k, parts);
      assert false;
    }
  }

  /** A tail ends with an alphanumeric character. */
  lemma TailEnd(tail: Path)
    requires TailMatches(tail)
    ensures tail != [] && IsAlphanumeric(tail[|tail| - 1])
  {
    SplitJoins(tail);
    DottedEnd(Split(tail)[1..]);
  }

  lemma {:induction false} DottedEnd(parts: seq<Path>)
    requires parts != [] && AllExtensions(parts)
    ensures var s := Dotted(parts); s != [] && IsAlphanumeric(s[|s| - 1])
  {
    if |parts| > 1 {
      DottedEnd(parts[1..]);
    } else {
      assert Dotted(parts) == ['.'] + parts[0];
    }
  }

  // ------------------------------------------------------------------- the search

  predicate EndsWith(s: Path, c: char) {
    s != [] && s[|s| - 1] == c
  }

  lemma WithTilde(s: Path, k: nat)
    requires k <= |s| && TailMatches(s[..k]) && (s[k..] == [] || s[k..] == ['~'])
    ensures Matches(RECOGNISED, s)
  {
    TailIsMatch(s[..k]);
    TildeShape(s[k..]);
  }

  predicate TailWithTilde(s: Path) {
    TailMatches(s) || (EndsWith(s, '~') && TailMatches(s[..|s| - 1]))
  }

  lemma MatchHasTail(s: Path)
    ensures Matches(RECOGNISED, s) ==> TailWithTilde(s)
  {
    if Matches(RECOGNISED, s) {
      var k := ThenSplits(RECOGNISED, s);
      TailIsMatch(s[..k]);
      TildeShape(s[k..]);
      if k == |s| {
        assert s[..k] == s;
      } else {
        assert s[k..][0] == s[k] && k == |s| - 1;
      }
    }
  }

  /** A match is a tail, possibly with a tilde behind it. */
  lemma MatchIsTail(s: Path)
    ensures Matches(RECOGNISED, s) <==> TailWithTilde(s)
  {
    MatchHasTail(s);
    if TailMatches(s) {
      assert s[..|s|] == s;
      WithTilde(s, |s|);
    } else if TailWithTilde(s) {
      WithTilde(s, |s| - 1);
    }
  }

  lemma StripSuffix(text: Path, start: nat)
    requires start < |text|
    ensures EndsWith(text[start..], '~') <==> EndsWith(text, '~')
    ensures StripTilde(text)[start..] == StripTilde(text[start..])
  {
    var s := text[start..];
    assert s[|s| - 1] == text[|text| - 1];
    assert text[..|text| - 1][start..] == s[..|s| - 1];
  }

  /** A match from start to the end of the text is a tail of the text without a tilde. */
  lemma MatchToEnd(text: Path, start: nat)
    requires start <= |text|
    ensures Matches(RECOGNISED, text[start..]) <==>
            start < |StripTilde(text)| && TailMatches(StripTilde(text)[start..])
  {
    var s := text[start..];
    MatchIsTail(s);
    if TailMatches(s) {
      TailEnd(s);
    }
    if s != [] {
      StripSuffix(text, start);
    }
  }

  ghost predicate FoundToEnd(r: Regex, text: Path) {
    exists start: nat :: start <= |text| && Matches(r, text[start..])
  }

  /** Matching up to the very end is what the recogniser decides. */
  lemma SearchToEnd(text: Path)
    ensures Recognises(text) <==> FoundToEnd(RECOGNISED, text)
  {
    var candidate := StripTilde(text);
    if Recognises(text) {
      var start: nat :| start < |candidate| && TailMatches(candidate[start..]);
      MatchToEnd(text, start);
    }
    if FoundToEnd(RECOGNISED, text) {
      var start: nat :| start <= |text| && Matches(RECOGNISED, text[start..]);
      MatchToEnd(text, start);
    }
  }

  lemma RecognisedShape(path: Path) returns (front: Path, word: Path, exts: seq<Path>, tilde: Path)
    requires Recognises(path)
    ensures path == front + word + Dotted(exts) + tilde && (tilde == "" || tilde == "~")
    ensures 1 <= |exts| <= 3 && IsWord(word) && AllExtensions(exts)
  {
    var candidate := StripTilde(path);
    var start :| 0 <= start < |candidate| && TailMatches(candidate[start..]);
    var tail := candidate[start..];
    SplitJoins(tail);
    front, word, exts, tilde := candidate[..start], Split(tail)[0], Split(tail)[1..], path[|candidate|..];
    assert path == candidate + tilde && candidate == front + tail;
  }

  /** What a recognised path looks like: text, a word, one to three extensions and perhaps a tilde. */
  lemma RecognisedParts(path: Path) returns (front: Path, word: Path, exts: seq<Path>, tilde: Path)
    requires Recognises(path)
    ensures 1 <= |exts| <= 3 && (tilde == "" || tilde == "~")
    ensures |exts| == 1 ==> path == front + word + "." + exts[0] + tilde
    ensures |exts| == 2 ==> path == front + word + "." + exts[0] + "." + exts[1] + tilde
    ensures |exts| == 3 ==> path == front + word + "." + exts[0] + "." + exts[1] + "." + exts[2] + tilde
    ensures word != "" && forall i :: 0 <= i < |word| ==>
                                    'a' <= word[i] <= 'z' || 'A' <= word[i] <= 'Z' || '0' <= word[i] <= '9'
                                    || word[i] == '_'
    ensures forall k :: 0 <= k < |exts| ==> 2 <= |exts[k]| <= 5
    ensures forall k, i :: 0 <= k < |exts| && 0 <= i < |exts[k]| ==>
                              'a' <= exts[k][i] <= 'z' || 'A' <= exts[k][i] <= 'Z' || '0' <= exts[k][i] <= '9'
  {
    front, word, exts, tilde := RecognisedShape(path);
    DottedOut(front + word, exts);
    forall k | 0 <= k < |exts|
      ensures IsExtension(exts[k])
    {
    }
  }

  /** And every such path is recognised. */
  lemma PartsRecognised(front: Path, word: Path, exts: seq<Path>, tilde: Path, path: Path)
    requires 1 <= |exts| <= 3 && (tilde == "" || tilde == "~")
    requires |exts| == 1 ==> path == front + word + "." + exts[0] + tilde
    requires |exts| == 2 ==> path == front + word + "." + exts[0] + "." + exts[1] + tilde
    requires |exts| == 3 ==> path == front + word + "." + exts[0] + "." + exts[1] + "." + exts[2] + tilde
    requires word != "" && forall i :: 0 <= i < |word| ==>
                                     'a' <= word[i] <= 'z' || 'A' <= word[i] <= 'Z' || '0' <= word[i] <= '9'
                                     || word[i] == '_'
    requires forall k :: 0 <= k < |exts| ==> 2 <= |exts[k]| <= 5
    requires forall k, i :: 0 <= k < |exts| && 0 <= i < |exts[k]| ==>
                               'a' <= exts[k][i] <= 'z' || 'A' <= exts[k][i] <= 'Z' || '0' <= exts[k][i] <= '9'
    ensures Recognises(path)
  {
    DottedOut(front + word, exts);
    assert IsWord(word) && AllExtensions(exts);
    ShapeRecognised(front, word, exts, tilde);
  }

  lemma ShapeRecognised(front: Path, word: Path, exts: seq<Path>, tilde: Path)
    requires (tilde == "" || tilde == "~") && 1 <= |exts| <= 3 && IsWord(word) && AllExtensions(exts)
    ensures Recognises(front + word + Dotted(exts) + tilde)
  {
    var tail := word + Dotted(exts);
    assert front + word + Dotted(exts) + tilde == front + tail + tilde;
    assert tail[..|word|] == word && tail[|word|..] == Dotted(exts);
    PiecesAreTail(tail, |word|, exts);
    TailEnd(tail);
    TailBehind(front, tail, tilde);
  }

  lemma TailBehind(front: Path, tail: Path, tilde: Path)
    requires tail != [] && tail[|tail| - 1] != '~' && TailMatches(tail) && (tilde == "" || tilde == "~")
    ensures Recognises(front + tail + tilde)
  {
    var path := front + tail + tilde;
    assert StripTilde(path) == front + tail by {
      if tilde == "" {
        assert path == front + tail && path[|path| - 1] == tail[|tail| - 1];
      } else {
        assert path[..|path| - 1] == front + tail;
      }
    }
    assert (front + tail)[|front|..] == tail;
  }

  lemma DottedStep(front: Path, exts: seq<Path>)
    requires exts != []
    ensures front + Dotted(exts) == front + "." + exts[0] + Dotted(exts[1..])
  {
  }

  lemma DottedOut(front: Path, exts: seq<Path>)
    requires 1 <= |exts| <= 3
    ensures |exts| == 1 ==> front + Dotted(exts) == front + "." + exts[0]
    ensures |exts| == 2 ==> front + Dotted(exts) == front + "." + exts[0] + "." + exts[1]
    ensures |exts| == 3 ==> front + Dotted(exts) == front + "." + exts[0] + "." + exts[1] + "." + exts[2]
    decreases |exts|
  {
    DottedStep(front, exts);
    var first, rest := front + "." + exts[0], exts[1..];
    if rest == [] {
      assert first + Dotted(rest) == first;
    } else {
      DottedOut(first, rest);
    }
  }

  function DropNewline(path: Path): Path {
    if path != [] && path[|path| - 1] == '\n' then path[..|path| - 1] else path
  }

  lemma SearchTriesBothEnds(r: Regex, path: Path)
    ensures Search(r, path) <==> FoundToEnd(r, path) || FoundToEnd(r, DropNewline(path))
  {
    var short := DropNewline(path);
    if Search(r, path) {
      var start: nat, end: nat :| start <= end <= |path| && AtDollar(path, end) && Matches(r, path[start..end]);
      assert path[start..end] == if end == |path| then path[start..] else short[start..];
    }
    if FoundToEnd(r, path) {
      var start: nat :| start <= |path| && Matches(r, path[start..]);
      assert path[start..|path|] == path[start..];
    }
    if FoundToEnd(r, short) {
      var start: nat :| start <= |short| && Matches(r, short[start..]);
      assert path[start..|short|] == short[start..] && AtDollar(path, |short|);
    }
  }

  /**
   On every ASCII path the expression is found exactly when the recogniser accepts
   the path or, because $ also matches there, the path without a final newline.
   */
  lemma SearchIsRecogniser(path: Path)
    ensures PythonSearch(path) <==> Recognises(path) || Recognises(DropNewline(path))
  {
    SearchTriesBothEnds(RECOGNISED, path);
    SearchToEnd(path);
    SearchToEnd(DropNewline(path));
  }

  /** Nothing that ends in a newline is recognised. */
  lemma NewlineNotRecognised(path: Path)
    requires path != [] && path[|path| - 1] == '\n'
    ensures !Recognises(path)
  {
    if Recognises(path) {
      var start :| 0 <= start < |path| && TailMatches(path[start..]);
      TailEnd(path[start..]);
      assert false;
    }
  }

  /** The two backends differ exactly on recognised paths with a newline appended. */
  lemma BackendsAgree(path: Path)
    ensures (PythonSearch(path) <==> Recognises(path)) <==>
            !(path != [] && path[|path| - 1] == '\n' && Recognises(path[..|path| - 1]))
  {
    SearchIsRecogniser(path);
    if path != [] && path[|path| - 1] == '\n' {
      NewlineNotRecognised(path);
    }
  }

  lemma AgreeWithoutNewline(path: Path)
    requires '\n' !in path
    ensures PythonSearch(path) <==> Recognises(path)
  {
    BackendsAgree(path);
  }
}

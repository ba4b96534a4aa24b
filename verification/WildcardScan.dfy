/**
 The pattern scan of DynamicContentParser.compare_to (lib/utils/diff.py): the words
 that were static in the wildcard responses are looked for left to right in a new
 response, and one miss is allowed once there are twenty of them.
 */
module WildcardScan {
  import opened Wrappers

  type Word = string

  const MISS_ALLOWED_FROM: nat := 20

  // ------------------------------------------------------------------- reference

  /** Positions in w, in order, that hold the words of p. */
  predicate Embeds(p: seq<Word>, w: seq<Word>, at: seq<nat>) {
    && |at| == |p|
    && (forall j :: 0 <= j < |p| ==> at[j] < |w| && w[at[j]] == p[j])
    && (forall i, j :: 0 <= i < j < |p| ==> at[i] < at[j])
  }

  ghost predicate Subsequence(p: seq<Word>, w: seq<Word>) {
    exists at :: Embeds(p, w, at)
  }

  function Without(p: seq<Word>, m: nat): seq<Word>
    requires m < |p|
  {
    p[..m] + p[m + 1..]
  }

  /** m is the first pattern that cannot be embedded along with those before it. */
  ghost predicate FirstMiss(p: seq<Word>, w: seq<Word>, m: nat) {
    m < |p| && Subsequence(p[..m], w) && !Subsequence(p[..m + 1], w)
  }

  ghost predicate Accepts(p: seq<Word>, w: seq<Word>) {
    || Subsequence(p, w)
    || (|p| >= MISS_ALLOWED_FROM && exists m: nat :: FirstMiss(p, w, m) && Subsequence(Without(p, m), w))
  }

  // ------------------------------------------------------------- the greedy search

  /** list.index(word, from), or the length for its ValueError. */
  function Index(w: seq<Word>, word: Word, from: nat): (i: nat)
    requires from <= |w|
    ensures from <= i <= |w| && (i < |w| ==> w[i] == word)
    ensures forall k :: from <= k < i ==> w[k] != word
    decreases |w| - from
  {
    if from == |w| || w[from] == word then from else Index(w, word, from + 1)
  }

  /** Where the search stands after k patterns were found in a row. */
  function After(p: seq<Word>, w: seq<Word>, k: nat): (end: Option<nat>)
    requires k <= |p|
    ensures end.Some? ==> end.value <= |w|
  {
    if k == 0 then Some(0) else
    match After(p, w, k - 1)
    case None => None
    case Some(from) =>
      var i := Index(w, p[k - 1], from);
      if i < |w| then Some(i + 1) else None
  }

  lemma EmbedsLast(p: seq<Word>, w: seq<Word>, k: nat, at: seq<nat>)
    requires 0 < k <= |p| && Embeds(p[..k], w, at)
    ensures Embeds(p[..k - 1], w, at[..k - 1])
    ensures at[k - 1] < |w| && w[at[k - 1]] == p[k - 1] && (k > 1 ==> at[..k - 1][k - 2] < at[k - 1])
  {
    var q := p[..k];
    assert p[..k - 1] == q[..k - 1] && p[k - 1] == q[k - 1];
  }

  /** The greedy search ends no later than any embedding. */
  lemma {:induction false} GreedyIsEarliest(p: seq<Word>, w: seq<Word>, k: nat, at: seq<nat>)
    requires k <= |p| && Embeds(p[..k], w, at)
    ensures After(p, w, k).Some? && (k > 0 ==> After(p, w, k).value <= at[k - 1] + 1)
  {
    if k > 0 {
      EmbedsLast(p, w, k, at);
      GreedyIsEarliest(p, w, k - 1, at[..k - 1]);
    }
  }

  lemma {:induction false} GreedyEmbeds(p: seq<Word>, w: seq<Word>, k: nat) returns (at: seq<nat>)
    requires k <= |p| && After(p, w, k).Some?
    ensures Embeds(p[..k], w, at)
    ensures forall j :: 0 <= j < k ==> at[j] < After(p, w, k).value
  {
    if k == 0 {
      at := [];
    } else {
      var before := GreedyEmbeds(p, w, k - 1);
      at := before + [After(p, w, k).value - 1];
      assert forall j :: 0 <= j < k - 1 ==> p[..k][j] == p[..k - 1][j];
    }
  }

  /** Greedy search decides whether a prefix of the patterns is a subsequence. */
  lemma GreedyDecides(p: seq<Word>, w: seq<Word>, k: nat)
    requires k <= |p|
    ensures Subsequence(p[..k], w) <==> After(p, w, k).Some?
  {
    if Subsequence(p[..k], w) {
      var at :| Embeds(p[..k], w, at);
      GreedyIsEarliest(p, w, k, at);
    }
    if After(p, w, k).Some? {
      var at := GreedyEmbeds(p, w, k);
    }
  }

  lemma ShorterPrefix(p: seq<Word>, q: seq<Word>, k: nat)
    requires 0 < k <= |p| && k <= |q| && p[..k] == q[..k]
    ensures p[..k - 1] == q[..k - 1] && p[k - 1] == q[k - 1]
  {
    assert p[..k - 1] == p[..k][..k - 1] && q[..k - 1] == q[..k][..k - 1];
    assert p[k - 1] == p[..k][k - 1] && q[k - 1] == q[..k][k - 1];
  }

  lemma {:induction false} SamePrefix(p: seq<Word>, q: seq<Word>, w: seq<Word>, k: nat)
    requires k <= |p| && k <= |q| && p[..k] == q[..k]
    ensures After(p, w, k) == After(q, w, k)
  {
    if k > 0 {
      ShorterPrefix(p, q, k);
      SamePrefix(p, q, w, k - 1);
    }
  }

  lemma {:induction false} MissStays(p: seq<Word>, w: seq<Word>, j: nat, k: nat)
    requires j <= k <= |p| && After(p, w, j).None?
    ensures After(p, w, k).None?
  {
    if j < k {
      MissStays(p, w, j, k - 1);
    }
  }

  /** The first miss of the search is the only first miss there is. */
  lemma SearchFindsFirstMiss(p: seq<Word>, w: seq<Word>, m: nat)
    requires m < |p|
    ensures FirstMiss(p, w, m) <==> After(p, w, m).Some? && After(p, w, m + 1).None?
    ensures FirstMiss(p, w, m) ==> !Subsequence(p, w)
  {
    GreedyDecides(p, w, m);
    GreedyDecides(p, w, m + 1);
    if FirstMiss(p, w, m) {
      GreedyDecides(p, w, |p|);
      MissStays(p, w, m + 1, |p|);
      assert p[..|p|] == p;
    }
  }

  lemma FirstMissIsUnique(p: seq<Word>, w: seq<Word>, m: nat, other: nat)
    requires FirstMiss(p, w, m) && FirstMiss(p, w, other)
    ensures m == other
  {
    SearchFindsFirstMiss(p, w, m);
    SearchFindsFirstMiss(p, w, other);
    if other < m {
      MissStays(p, w, other + 1, m);
    } else if m < other {
      MissStays(p, w, m + 1, other);
    }
  }

  // ---------------------------------------------------------------------- the scan

  /** The scan's variables after k patterns; missed is the one forgiven, if any. */
  ghost predicate Scanned(p: seq<Word>, w: seq<Word>, k: nat, from: nat, misses: nat, missed: nat)
    requires k <= |p|
  {
    && from <= |w|
    && misses <= 1
    && (misses == 0 ==> After(p, w, k) == Some(from))
    && (misses == 1 ==> missed < k && |p| >= MISS_ALLOWED_FROM && FirstMiss(p, w, missed)
                        && After(Without(p, missed), w, k - 1) == Some(from))
  }

  lemma Found(p: seq<Word>, w: seq<Word>, k: nat, from: nat, misses: nat, missed: nat)
    requires k < |p| && Scanned(p, w, k, from, misses, missed) && Index(w, p[k], from) < |w|
    ensures Scanned(p, w, k + 1, Index(w, p[k], from) + 1, misses, missed)
  {
    if misses == 1 {
      assert Without(p, missed)[k - 1] == p[k];
    }
  }

  /** The search past a forgiven miss is the search without the missed pattern. */
  lemma Forgiven(p: seq<Word>, w: seq<Word>, k: nat, from: nat, missed: nat)
    requires k < |p| && Scanned(p, w, k, from, 0, missed) && Index(w, p[k], from) == |w|
    requires |p| >= MISS_ALLOWED_FROM
    ensures Scanned(p, w, k + 1, from, 1, k)
  {
    SearchFindsFirstMiss(p, w, k);
    assert Without(p, k)[..k] == p[..k];
    SamePrefix(p, Without(p, k), w, k);
  }

  /** Missing a second pattern after the forgiven one is final. */
  lemma SecondMiss(p: seq<Word>, w: seq<Word>, missed: nat, k: nat)
    requires FirstMiss(p, w, missed) && k < |p| && After(Without(p, missed), w, k).None?
    ensures !Accepts(p, w)
  {
    SearchFindsFirstMiss(p, w, missed);
    var rest := Without(p, missed);
    MissStays(rest, w, k, |rest|);
    GreedyDecides(rest, w, |rest|);
    assert rest[..|rest|] == rest;
    forall m: nat | FirstMiss(p, w, m)
      ensures m == missed
    {
      FirstMissIsUnique(p, w, m, missed);
    }
  }

  /** Why a rejection is right. */
  lemma Rejected(p: seq<Word>, w: seq<Word>, k: nat, from: nat, misses: nat, missed: nat)
    requires k < |p| && Scanned(p, w, k, from, misses, missed) && Index(w, p[k], from) == |w|
    requires misses == 1 || |p| < MISS_ALLOWED_FROM
    ensures !Accepts(p, w)
  {
    if misses == 0 {
      SearchFindsFirstMiss(p, w, k);
    } else {
      assert Without(p, missed)[k - 1] == p[k];
      SecondMiss(p, w, missed, k);
    }
  }

  lemma Finished(p: seq<Word>, w: seq<Word>, from: nat, misses: nat, missed: nat)
    requires Scanned(p, w, |p|, from, misses, missed)
    ensures Accepts(p, w)
  {
    if misses == 0 {
      GreedyDecides(p, w, |p|);
      assert p[..|p|] == p;
    } else {
      var rest := Without(p, missed);
      GreedyDecides(rest, w, |rest|);
      assert rest[..|rest|] == rest;
    }
  }

  /** The scan of compare_to. */
  method ScanPatterns(patterns: seq<Word>, words: seq<Word>) returns (accepted: bool)
    ensures accepted <==> Accepts(patterns, words)
    ensures |patterns| < 20 ==> (accepted <==> Subsequence(patterns, words))
    ensures |patterns| >= 20 ==>
              (accepted <==> Subsequence(patterns, words)
                             || exists m: nat :: m < |patterns| && Subsequence(patterns[..m], words)
                                                 && !Subsequence(patterns[..m + 1], words)
                                                 && Subsequence(patterns[..m] + patterns[m + 1..], words))
  {
    AcceptanceMeans(patterns, words);
    var i: int := -1;
    var misses := 0;
    ghost var missed: nat := 0;
    for k := 0 to |patterns|
      invariant -1 <= i && 0 <= misses && Scanned(patterns, words, k, i + 1, misses, missed)
    {
      var found := Index(words, patterns[k], i + 1);
      if found < |words| {
        Found(patterns, words, k, i + 1, misses, missed);
        i := found;
      } else {
        if misses != 0 || |patterns| < MISS_ALLOWED_FROM {
          Rejected(patterns, words, k, i + 1, misses, missed);
          return false;
        }
        Forgiven(patterns, words, k, i + 1, missed);
        missed := k;
        misses := misses + 1;
      }
    }
    Finished(patterns, words, i + 1, misses, missed);
    return true;
  }

  // ------------------------------------------------------------------ the verdict

  /** A parser after its samples: whether they were all equal, the first one, and the static words. */
  datatype DynamicContent =
    DynamicContent(isStatic: bool, baseContent: string, normalizedBase: string, staticPatterns: seq<Word>)

  predicate IsSpace(c: char) {
    c == ' ' || '\t' <= c <= '\r' || '\U{1C}' <= c <= '\U{1F}'
  }

  /** str.split(): the maximal runs without white space. */
  function Words(s: string): seq<Word> {
    if s == [] then []
    else if IsSpace(s[0]) then Words(s[1..])
    else
      var rest := Words(s[1..]);
      if |s| == 1 || IsSpace(s[1]) || rest == [] then [[s[0]]] + rest else [[s[0]] + rest[0]] + rest[1..]
  }

  /** Whether a response is the wildcard page of p; normalize and ratio are given. */
  method CompareTo(p: DynamicContent, content: string, normalizedContent: Option<string>,
                   normalize: string -> string, ratio: (string, string) -> real)
    returns (same: bool)
    ensures var normalized := match normalizedContent case Some(n) => n case None => normalize(content);
            && (p.isStatic ==> (same <==> content == p.baseContent || normalized == p.normalizedBase))
            && (!p.isStatic ==>
                  (same <==>
                   && Accepts(p.staticPatterns, Words(normalized))
                   && (|Words(content)| > |Words(p.baseContent)| && |p.staticPatterns| < 20 ==>
                         ratio(p.normalizedBase, normalized) > 0.75)))
  {
    var normalized := match normalizedContent case Some(n) => n case None => normalize(content);
    if p.isStatic {
      return content == p.baseContent || normalized == p.normalizedBase;
    }
    var accepted := ScanPatterns(p.staticPatterns, Words(normalized));
    if !accepted {
      return false;
    }
    if |Words(content)| > |Words(p.baseContent)| && |p.staticPatterns| < MISS_ALLOWED_FROM {
      return ratio(p.normalizedBase, normalized) > 0.75;
    }
    return true;
  }

  predicate IsWord(w: Word) {
    w != [] && forall c :: c in w ==> !IsSpace(c)
  }

  lemma LongerIsWord(c: char, w: Word)
    requires !IsSpace(c) && IsWord(w)
    ensures IsWord([c] + w)
  {
    assert forall x :: x in [c] + w ==> x == c || x in w;
  }

  lemma JoinedLonger(c: char, rest: seq<Word>)
    requires rest != []
    ensures Joined([[c] + rest[0]] + rest[1..]) == [c] + Joined(rest)
  {
    assert ([[c] + rest[0]] + rest[1..])[1..] == rest[1..];
    assert [c] + rest[0] + Joined(rest[1..]) == [c] + (rest[0] + Joined(rest[1..]));
  }

  lemma LongerWord(c: char, rest: seq<Word>)
    requires rest != [] && !IsSpace(c) && forall w :: w in rest ==> IsWord(w)
    ensures var words := [[c] + rest[0]] + rest[1..];
            Joined(words) == [c] + Joined(rest) && forall w :: w in words ==> IsWord(w)
  {
    JoinedLonger(c, rest);
    LongerIsWord(c, rest[0]);
  }

  /** The words hold all the other characters of the text, in order, and none is empty or has a space. */
  lemma {:induction false} WordsAreText(s: string)
    ensures Joined(Words(s)) == NoSpaces(s)
    ensures forall w :: w in Words(s) ==> IsWord(w)
    ensures s != [] && !IsSpace(s[0]) ==> Words(s) != [] && Words(s)[0][0] == s[0]
  {
    if s != [] {
      WordsAreText(s[1..]);
      var rest := Words(s[1..]);
      if !IsSpace(s[0]) {
        if |s| == 1 || IsSpace(s[1]) || rest == [] {
          assert Words(s)[1..] == rest && Words(s)[0] == [s[0]];
        } else {
          LongerWord(s[0], rest);
        }
      }
    }
  }

  /** A character of white space ends a word, and text without any is one word: the words are the maximal runs. */
  lemma {:induction false} WordsJoin(a: string, c: char, b: string)
    requires c as int == 32 || 9 <= c as int <= 13 || 28 <= c as int <= 31
    ensures Words(a + [c] + b) == Words(a) + Words(b)
  {
    var s := a + [c] + b;
    if a == [] {
      assert s[1..] == b;
    } else {
      assert s[1..] == a[1..] + [c] + b;
      WordsJoin(a[1..], c, b);
      WordsAreText(a[1..]);
      NoWordLeft(a[1..]);
      if |a| > 1 && !IsSpace(a[0]) && !IsSpace(a[1]) {
        assert Words(a[1..]) != [];
        assert (Words(a[1..]) + Words(b))[1..] == Words(a[1..])[1..] + Words(b);
      }
    }
  }

  lemma {:induction false} NoWordLeft(s: string)
    ensures s == [] ==> Words(s) == []
    ensures Words(s) == [] ==> forall c :: c in s ==> IsSpace(c)
  {
    if s != [] {
      NoWordLeft(s[1..]);
    }
  }

  lemma {:induction false} OneWord(w: string)
    requires w != [] && forall c :: c in w ==> !(c as int == 32 || 9 <= c as int <= 13 || 28 <= c as int <= 31)
    ensures Words(w) == [w]
  {
    assert w == [w[0]] + w[1..] && w[0] in w;
    assert forall c :: c in w[1..] ==> c in w;
    if |w| > 1 {
      OneWord(w[1..]);
      assert w[1] in w;
    } else {
      var one: seq<Word> := [[w[0]]];
      assert one + Words(w[1..]) == one && w == [w[0]];
    }
  }

  function Joined(words: seq<Word>): string {
    if words == [] then [] else words[0] + Joined(words[1..])
  }

  function NoSpaces(s: string): string {
    if s == [] then [] else (if IsSpace(s[0]) then [] else [s[0]]) + NoSpaces(s[1..])
  }

  // -------------------------------------------------------------------- properties

  /**
   Below twenty patterns any miss rejects. From twenty on the first miss is forgiven,
   and then all the others must be found without it.
   */
  lemma AcceptanceMeans(p: seq<Word>, w: seq<Word>)
    ensures |p| < 20 ==> (Accepts(p, w) <==> Subsequence(p, w))
    ensures |p| >= 20 ==>
              (Accepts(p, w) <==>
               Subsequence(p, w)
               || exists m: nat :: m < |p| && Subsequence(p[..m], w) && !Subsequence(p[..m + 1], w)
                                   && Subsequence(p[..m] + p[m + 1..], w))
    ensures Accepts(p, w) ==> Subsequence(p, w) || exists m: nat :: m < |p| && Subsequence(p[..m] + p[m + 1..], w)
  {
    if Accepts(p, w) && !Subsequence(p, w) {
      var m: nat :| FirstMiss(p, w, m) && Subsequence(Without(p, m), w);
      assert Without(p, m) == p[..m] + p[m + 1..];
    }
    forall m: nat | m < |p| && Subsequence(p[..m], w) && !Subsequence(p[..m + 1], w)
      ensures FirstMiss(p, w, m) && Without(p, m) == p[..m] + p[m + 1..]
    {
    }
  }

  /** Being a subsequence is having a place for every word, each after the one before. */
  lemma SubsequencePlaces(p: seq<Word>, w: seq<Word>) returns (at: seq<nat>)
    requires Subsequence(p, w)
    ensures |at| == |p| && forall j :: 0 <= j < |p| ==> at[j] < |w| && w[at[j]] == p[j]
    ensures forall i, j :: 0 <= i < j < |p| ==> at[i] < at[j]
  {
    at :| Embeds(p, w, at);
  }

  lemma PlacesAreSubsequence(p: seq<Word>, w: seq<Word>, at: seq<nat>)
    requires |at| == |p| && forall j :: 0 <= j < |p| ==> at[j] < |w| && w[at[j]] == p[j]
    requires forall i, j :: 0 <= i < j < |p| ==> at[i] < at[j]
    ensures Subsequence(p, w)
  {
    assert Embeds(p, w, at);
  }

  function Copies(word: Word, n: nat): seq<Word> {
    seq(n, _ => word)
  }

  /** The search takes the moved pattern first and then finds nothing else. */
  lemma MovedPatternSearch(first: Word, other: Word, n: nat)
    requires first != other
    ensures var w := Copies(other, n) + [first];
            Index(w, first, 0) == n && Index(w, other, n + 1) == n + 1
  {
    var w := Copies(other, n) + [first];
    assert w[n] == first;
    assert forall k :: 0 <= k < n ==> w[k] == other;
    var i := Index(w, first, 0);
    assert !(n < i);
    assert i < |w| && w[i] == first;
  }

  /**
   The converse fails: with a first pattern that moved to the end, deleting it
   leaves a subsequence, but the scan runs past all the rest and rejects.
   */
  lemma MovedPatternRejects(first: Word, other: Word, n: nat)
    requires first != other && n >= 2
    ensures var p, w := [first] + Copies(other, n), Copies(other, n) + [first];
            Subsequence(Without(p, 0), w) && !Accepts(p, w)
  {
    var p, w := [first] + Copies(other, n), Copies(other, n) + [first];
    assert Without(p, 0) == Copies(other, n);
    assert Embeds(Without(p, 0), w, seq(n, i => i));
    MovedPatternMisses(first, other, n);
    SearchFindsFirstMiss(p, w, 1);
    SecondMiss(p, w, 1, 2);
  }

  lemma MovedPatternMisses(first: Word, other: Word, n: nat)
    requires first != other && n >= 2
    ensures var p, w := [first] + Copies(other, n), Copies(other, n) + [first];
            After(p, w, 1).Some? && After(p, w, 2).None? && After(Without(p, 1), w, 2).None?
  {
    var p, w := [first] + Copies(other, n), Copies(other, n) + [first];
    MovedPatternSearch(first, other, n);
    assert After(p, w, 1) == Some(n + 1) && p[1] == other;
    var rest := Without(p, 1);
    assert rest[..1] == p[..1] && rest[1] == other;
    SamePrefix(p, rest, w, 1);
  }
}

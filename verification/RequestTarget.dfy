/**
 Request-target preparation: the Rust version, which edits the path in place
 (native/src/request_target.rs), against Python's append_query_string
 (lib/parse/url.py) followed by safequote (lib/utils/common.py).

 Both work on the UTF-8 bytes of the text.
 */
module RequestTarget {
  import opened Wrappers
  import opened ByteStrings

  const QUESTION: Byte := 63
  const HASH: Byte := 35
  const PERCENT: Byte := 37

  // ------------------------------------------------------------- Python's version

  /** string.punctuation */
  const PUNCTUATION: Bytes :=
    [33, 34, 35, 36, 37, 38, 39, 40, 41, 42, 43, 44, 45, 46, 47, 58, 59, 60, 61, 62, 63, 64,
     91, 92, 93, 94, 95, 96, 123, 124, 125, 126]

  /** The letters, digits and marks that quote never escapes. */
  predicate AlwaysSafe(b: Byte) {
    65 <= b <= 90 || 97 <= b <= 122 || 48 <= b <= 57 || b == 95 || b == 46 || b == 45 || b == 126
  }

  predicate Safe(b: Byte) {
    AlwaysSafe(b) || b in PUNCTUATION
  }

  /** urllib.parse.quote(text, safe=string.punctuation) */
  function Quote(s: Bytes): Bytes {
    if s == [] then []
    else (if Safe(s[0]) then [s[0]] else [PERCENT, HexDigit(s[0] / 16), HexDigit(s[0] % 16)]) + Quote(s[1..])
  }

  /** Index of the first occurrence, or the length. */
  function Find(s: Bytes, c: Byte): (i: nat)
    ensures i <= |s| && c !in s[..i] && (i < |s| ==> s[i] == c)
  {
    if s == [] || s[0] == c then 0 else
    var i := Find(s[1..], c);
    assert s[..i + 1] == [s[0]] + s[1..][..i];
    i + 1
  }

  /** str.partition('#'), the query put between the two parts. */
  function AppendQuery(value: Bytes, query: Bytes): Bytes {
    if query == [] || QUESTION in value then value else
    var i := Find(value, HASH);
    var path, fragment := value[..i], if i < |value| then value[i + 1..] else [];
    path + [QUESTION] + query + if i < |value| then [HASH] + fragment else []
  }

  function Prepare(path: Bytes, query: Bytes): Bytes {
    Quote(AppendQuery(path, query))
  }

  // --------------------------------------------------------------- Rust's version

  predicate Printable(b: Byte) {
    33 <= b <= 126
  }

  lemma SafeIsPrintable(b: Byte)
    ensures Safe(b) <==> Printable(b)
    ensures Printable(b) <==> 33 <= b <= 126
  {
    assert PUNCTUATION[0] == 33;
    if 33 <= b <= 47 {
      assert PUNCTUATION[b - 33] == b;
    } else if 58 <= b <= 64 {
      assert PUNCTUATION[b - 43] == b;
    } else if 91 <= b <= 96 {
      assert PUNCTUATION[b - 69] == b;
    } else if 123 <= b <= 126 {
      assert PUNCTUATION[b - 95] == b;
    }
  }

  function CountEscaped(s: Bytes): nat {
    if s == [] then 0 else (if Printable(s[0]) then 0 else 1) + CountEscaped(s[1..])
  }

  lemma {:induction false} NothingToEscape(s: Bytes)
    ensures CountEscaped(s) == 0 <==> forall i :: 0 <= i < |s| ==> Printable(s[i])
    ensures CountEscaped(s) == 0 ==> Quote(s) == s
  {
    if s != [] {
      SafeIsPrintable(s[0]);
      NothingToEscape(s[1..]);
      assert s == [s[0]] + s[1..];
    }
  }

  lemma {:induction false} QuoteConcat(s: Bytes, t: Bytes)
    ensures Quote(s + t) == Quote(s) + Quote(t)
  {
    if s == [] {
      assert s + t == t;
    } else {
      assert (s + t)[1..] == s[1..] + t;
      QuoteConcat(s[1..], t);
    }
  }

  lemma QuoteNext(s: Bytes, i: nat)
    requires i < |s|
    ensures Quote(s[..i + 1]) ==
            Quote(s[..i]) + if Printable(s[i]) then [s[i]] else [PERCENT, HexDigit(s[i] / 16), HexDigit(s[i] % 16)]
  {
    var b := s[i];
    assert s[..i + 1] == s[..i] + [b];
    QuoteConcat(s[..i], [b]);
    SafeIsPrintable(b);
    assert [b][1..] == [];
  }

  /** Every byte is quoted for itself: printable ASCII stays, any other is a percent sign and two digits. */
  lemma QuoteByte(s: Bytes, b: Byte)
    ensures Quote([]) == []
    ensures Quote(s + [b]) == Quote(s) + if 33 <= b <= 126 then [b]
                              else [37, "0123456789ABCDEF"[b / 16] as int, "0123456789ABCDEF"[b % 16] as int]
  {
    var t := s + [b];
    assert t[..|s| + 1] == t && t[..|s|] == s;
    QuoteNext(t, |s|);
    HexDigits(0, b / 16);
    HexDigits(0, b % 16);
  }

  lemma {:induction false} FindAt(s: Bytes, c: Byte, k: nat)
    requires k <= |s| && c !in s[..k] && (k == |s| || s[k] == c)
    ensures Find(s, c) == k
  {
    if k > 0 {
      assert s[0] == s[..k][0] && s[1..][..k - 1] == s[..k][1..];
      FindAt(s[1..], c, k - 1);
    }
  }

  /** A query goes behind the path and before its fragment, unless there is one already. */
  lemma QueryBeforeFragment(path: Bytes, k: nat, query: Bytes)
    requires k <= |path| && 35 !in path[..k] && (k == |path| || path[k] == 35)
    ensures AppendQuery(path, query) ==
            if query == [] || 63 in path then path else path[..k] + [63] + query + path[k..]
  {
    FindAt(path, HASH, k);
    if k < |path| {
      assert path[k..] == [HASH] + path[k + 1..];
    }
  }

  class Target {
    var path: Bytes

    constructor (path: Bytes)
      ensures this.path == path
    {
      this.path := path;
    }

    method AppendQueryString(query: Bytes)
      modifies this
      ensures path == AppendQuery(old(path), query)
      ensures query == [] || 63 in old(path) ==> path == old(path)
      ensures query != [] && 63 !in old(path) ==>
                var was := old(path);
                forall k :: 0 <= k <= |was| && 35 !in was[..k] && (k == |was| || was[k] == 35) ==>
                              path == was[..k] + [63] + query + was[k..]
    {
      forall k | 0 <= k <= |path| && 35 !in path[..k] && (k == |path| || path[k] == 35) {
        QueryBeforeFragment(path, k, query);
      }
      if query == [] || QUESTION in path {
        return;
      }
      var i := Find(path, HASH);
      if i < |path| {
        ghost var was := path;
        path := path[..i] + [QUESTION] + path[i..];
        path := path[..i + 1] + query + path[i + 1..];
        assert path == was[..i] + [QUESTION] + query + ([HASH] + was[i + 1..]);
      } else {
        assert path[..i] == path;
        path := path + [QUESTION] + query;
      }
    }

    /** The Rust preparation is Python's append-query and quote. */
    method PrepareRequestTarget(query: Bytes)
      modifies this
      ensures path == Prepare(old(path), query)
      ensures forall i :: 0 <= i < |path| ==> 33 <= path[i] <= 126
      ensures query == [] || 63 in old(path) ==> Unquote(path) == Unquote(old(path))
      ensures query != [] && 63 !in old(path) ==>
                var was := old(path);
                forall k :: 0 <= k <= |was| && 35 !in was[..k] && (k == |was| || was[k] == 35) ==>
                              Unquote(path) == Unquote(was[..k] + [63] + query + was[k..])
    {
      PreparedMeans(path, query);
      AppendQueryString(query);
      QuotePath();
    }

    /** Percent-encode what is not printable ASCII. */
    method QuotePath()
      modifies this
      ensures path == Quote(old(path))
    {
      NothingToEscape(path);
      if CountEscaped(path) == 0 {
        return;
      }
      var quoted: Bytes := [];
      for i := 0 to |path|
        invariant path == old(path) && quoted == Quote(path[..i])
      {
        var b := path[i];
        QuoteNext(path, i);
        if 33 <= b <= 126 {
          quoted := quoted + [b];
        } else {
          ghost var before := quoted;
          quoted := quoted + [PERCENT];
          quoted := quoted + [HexDigit(b / 16)];
          quoted := quoted + [HexDigit(b % 16)];
          assert quoted == before + [PERCENT, HexDigit(b / 16), HexDigit(b % 16)];
        }
      }
      assert path[..|path|] == path;
      path := quoted;
    }
  }

  method Prepared(path: Bytes, query: Bytes) returns (prepared: Bytes)
    ensures prepared == Prepare(path, query)
  {
    var target := new Target(path);
    target.PrepareRequestTarget(query);
    prepared := target.path;
  }

  method PrepareRequestTargets(paths: array<Bytes>, query: Bytes)
    modifies paths
    ensures forall i :: 0 <= i < paths.Length ==> paths[i] == Prepare(old(paths[i]), query)
    ensures var were := old(paths[..]);
            && (forall i :: 0 <= i < paths.Length && (query == [] || 63 in were[i]) ==>
                              Unquote(paths[i]) == Unquote(were[i]))
            && (forall i, k :: 0 <= i < paths.Length && query != [] && 63 !in were[i] && 0 <= k <= |were[i]|
                               && 35 !in were[i][..k] && (k == |were[i]| || were[i][k] == 35) ==>
                                 Unquote(paths[i]) == Unquote(were[i][..k] + [63] + query + were[i][k..]))
  {
    ghost var were := paths[..];
    for i := 0 to paths.Length
      invariant forall j :: 0 <= j < i ==> paths[j] == Prepare(were[j], query)
      invariant forall j :: i <= j < paths.Length ==> paths[j] == were[j]
    {
      var prepared := Prepared(paths[i], query);
      paths[i] := prepared;
    }
    AllPreparedMean(were, query);
  }

  // -------------------------------------------------------------------- properties

  /** Only printable ASCII remains. */
  lemma {:induction false} QuoteIsPrintable(s: Bytes)
    ensures forall i :: 0 <= i < |Quote(s)| ==> Printable(Quote(s)[i])
  {
    if s != [] {
      SafeIsPrintable(s[0]);
      QuoteIsPrintable(s[1..]);
    }
  }

  lemma {:induction false} QuoteKeepsQuestion(s: Bytes)
    ensures QUESTION in Quote(s) <==> QUESTION in s
  {
    if s != [] {
      SafeIsPrintable(s[0]);
      QuoteKeepsQuestion(s[1..]);
      assert QUESTION in s <==> s[0] == QUESTION || QUESTION in s[1..];
    }
  }

  lemma QuoteIdempotent(s: Bytes)
    ensures Quote(Quote(s)) == Quote(s)
  {
    QuoteIsPrintable(s);
    NothingToEscape(Quote(s));
  }

  /** Preparing a prepared target changes nothing, and every byte of it is printable ASCII. */
  lemma PrepareIdempotent(path: Bytes, query: Bytes)
    ensures Prepare(Prepare(path, query), query) == Prepare(path, query)
    ensures forall i :: 0 <= i < |Prepare(path, query)| ==> 33 <= Prepare(path, query)[i] <= 126
  {
    var appended := AppendQuery(path, query);
    QuoteIsPrintable(appended);
    QuoteIdempotent(appended);
    QuoteKeepsQuestion(appended);
    if query != [] && QUESTION !in path {
      assert appended[Find(path, HASH)] == QUESTION;
    }
    assert AppendQuery(Quote(appended), query) == Quote(appended);
  }

  /** A percent sign with two hex digits at the start. */
  predicate Escape(s: Bytes) {
    |s| >= 3 && s[0] == PERCENT && HexValue(s[1]).Some? && HexValue(s[2]).Some?
  }

  function EscapedByte(s: Bytes): Byte
    requires Escape(s)
  {
    16 * HexValue(s[1]).value + HexValue(s[2]).value
  }

  /** What a server reads: every percent sign with two hex digits is the byte they name. */
  function Unquote(s: Bytes): Bytes
    decreases |s|
  {
    if s == [] then []
    else if Escape(s) then [EscapedByte(s)] + Unquote(s[3..])
    else [s[0]] + Unquote(s[1..])
  }

  /** An escape in digits of either case is the byte it names. */
  lemma UnquoteMeans(v: Byte, first: string, second: string, rest: Bytes)
    requires first == "0123456789abcdef" || first == "0123456789ABCDEF"
    requires second == "0123456789abcdef" || second == "0123456789ABCDEF"
    requires first[v / 16] as int < 128 && second[v % 16] as int < 128
    ensures Unquote([37, first[v / 16] as int, second[v % 16] as int] + rest) == [v] + Unquote(rest)
  {
    var s := [PERCENT, first[v / 16] as int, second[v % 16] as int] + rest;
    HexTables(v / 16);
    HexTables(v % 16);
    assert s[3..] == rest;
  }

  /** Any other byte stands for itself. */
  lemma UnquoteKeeps(s: Bytes)
    requires s != [] && (|s| < 3 || s[0] != 37 || HexValue(s[1]).None? || HexValue(s[2]).None?)
    ensures Unquote(s) == [s[0]] + Unquote(s[1..])
  {
  }

  lemma HexTables(d: nat)
    requires d < 16
    ensures HexValue("0123456789abcdef"[d] as int) == Some(d) == HexValue("0123456789ABCDEF"[d] as int)
  {
    LowerTable(d);
    UpperTable(d);
  }

  lemma {:induction false} NothingToUnquote(s: Bytes)
    requires 37 !in s
    ensures Unquote(s) == s
  {
    if s != [] {
      NothingToUnquote(s[1..]);
    }
  }

  /** What a server reads in a prepared target: the path with the query before its fragment, or the path alone. */
  lemma PreparedMeans(path: Bytes, query: Bytes)
    ensures query == [] || 63 in path ==> Unquote(Prepare(path, query)) == Unquote(path)
    ensures query != [] && 63 !in path ==>
              forall k :: 0 <= k <= |path| && 35 !in path[..k] && (k == |path| || path[k] == 35) ==>
                            Unquote(Prepare(path, query)) == Unquote(path[..k] + [63] + query + path[k..])
    ensures forall i :: 0 <= i < |Prepare(path, query)| ==> 33 <= Prepare(path, query)[i] <= 126
  {
    PrepareIdempotent(path, query);
    QuoteKeepsMeaning(AppendQuery(path, query));
    forall k | 0 <= k <= |path| && 35 !in path[..k] && (k == |path| || path[k] == 35) {
      QueryBeforeFragment(path, k, query);
    }
  }

  lemma AllPreparedMean(paths: seq<Bytes>, query: Bytes)
    ensures forall i :: 0 <= i < |paths| && (query == [] || 63 in paths[i]) ==>
                          Unquote(Prepare(paths[i], query)) == Unquote(paths[i])
    ensures forall i, k :: 0 <= i < |paths| && query != [] && 63 !in paths[i] && 0 <= k <= |paths[i]|
                           && 35 !in paths[i][..k] && (k == |paths[i]| || paths[i][k] == 35) ==>
                             Unquote(Prepare(paths[i], query)) == Unquote(paths[i][..k] + [63] + query + paths[i][k..])
  {
    forall i | 0 <= i < |paths| {
      PreparedMeans(paths[i], query);
    }
  }

  /** Without a percent sign in it, it is read as it was written. */
  lemma PlainTargetIsRead(front: Bytes, back: Bytes, query: Bytes)
    requires 35 !in front && (back == [] || back[0] == 35) && 37 !in front + query + back
    requires query != [] && 63 !in front + back
    ensures Unquote(Prepare(front + back, query)) == front + [63] + query + back
  {
    var path := front + back;
    assert path[..|front|] == front && path[|front|..] == back;
    PreparedMeans(path, query);
    NothingToUnquote(front + [63] + query + back);
  }

  /** How a quoted text starts. */
  lemma QuoteStarts(s: Bytes)
    requires s != []
    ensures Quote(s) != [] && Quote(s)[0] == if Safe(s[0]) then s[0] else PERCENT
    ensures Safe(s[0]) ==> Quote(s)[1..] == Quote(s[1..])
  {
    if Safe(s[0]) {
      assert ([s[0]] + Quote(s[1..]))[1..] == Quote(s[1..]);
    }
  }

  lemma HexIsSafe(c: Byte)
    requires HexValue(c).Some?
    ensures Safe(c)
  {
  }

  /** Quoting neither makes nor breaks an escape that is already there. */
  lemma QuoteKeepsEscape(s: Bytes)
    requires s != [] && s[0] == PERCENT
    ensures Escape(Quote(s)) <==> Escape(s)
    ensures Escape(s) ==> EscapedByte(Quote(s)) == EscapedByte(s) && Quote(s)[3..] == Quote(s[3..])
  {
    SafeIsPrintable(PERCENT);
    QuoteStarts(s);
    if |s| > 1 {
      QuoteStarts(s[1..]);
      if HexValue(s[1]).Some? && |s| > 2 {
        HexIsSafe(s[1]);
        assert s[1..][1..] == s[2..];
        QuoteStarts(s[2..]);
        if HexValue(s[2]).Some? {
          HexIsSafe(s[2]);
          assert s[2..][1..] == s[3..];
        }
      }
    }
  }

  lemma UnquoteEscaped(b: Byte, rest: Bytes)
    ensures Unquote([PERCENT, HexDigit(b / 16), HexDigit(b % 16)] + rest) == [b] + Unquote(rest)
  {
    var s := [PERCENT, HexDigit(b / 16), HexDigit(b % 16)] + rest;
    assert s[3..] == rest;
  }

  lemma UnquoteEscape(s: Bytes)
    requires Escape(s)
    ensures Unquote(s) == [EscapedByte(s)] + Unquote(s[3..])
  {
  }

  lemma KeepEscape(s: Bytes)
    requires Escape(s) && Unquote(Quote(s[3..])) == Unquote(s[3..])
    ensures Unquote(Quote(s)) == Unquote(s)
  {
    QuoteKeepsEscape(s);
    UnquoteEscape(s);
    UnquoteEscape(Quote(s));
  }

  lemma KeepPlain(s: Bytes)
    requires s != [] && Safe(s[0]) && !Escape(s) && Unquote(Quote(s[1..])) == Unquote(s[1..])
    ensures Unquote(Quote(s)) == Unquote(s)
  {
    QuoteStarts(s);
    if s[0] == PERCENT {
      QuoteKeepsEscape(s);
    }
    assert !Escape(Quote(s));
  }

  /** Quoting keeps what the target means to a server that decodes it. */
  lemma {:induction false} QuoteKeepsMeaning(s: Bytes)
    ensures Unquote(Quote(s)) == Unquote(s)
    decreases |s|
  {
    if Escape(s) {
      QuoteKeepsMeaning(s[3..]);
      KeepEscape(s);
    } else if s != [] {
      QuoteKeepsMeaning(s[1..]);
      if Safe(s[0]) {
        KeepPlain(s);
      } else {
        SafeIsPrintable(PERCENT);
        UnquoteEscaped(s[0], Quote(s[1..]));
      }
    }
  }
}

/**
 Which body follows an HTTP response head (native/src/raw_http.rs; section 6.3 of
 RFC 9112), and what reading it yields.

 A head is what read_head returned: a status and the header fields, with values as
 bytes; white space is ASCII white space.
 */
module HttpHeaders {
  import opened Wrappers
  import opened ByteStrings
  import opened HttpFraming

  datatype Header = Header(name: Bytes, value: Bytes)

  datatype Head = Head(status: nat, headers: seq<Header>)

  const COMMA: Byte := 44
  const MAX_INFORMATIONAL: nat := 8

  /** "content-length", "transfer-encoding" and "chunked" */
  const CONTENT_LENGTH: Bytes := [99, 111, 110, 116, 101, 110, 116, 45, 108, 101, 110, 103, 116, 104]
  const TRANSFER_ENCODING: Bytes :=
    [116, 114, 97, 110, 115, 102, 101, 114, 45, 101, 110, 99, 111, 100, 105, 110, 103]
  const CHUNKED: Bytes := [99, 104, 117, 110, 107, 101, 100]

  // -------------------------------------------------------------- list-valued fields

  function Lower(b: Byte): Byte {
    if 65 <= b <= 90 then b + 32 else b
  }

  predicate SameIgnoringCase(a: Bytes, b: Bytes) {
    |a| == |b| && forall i :: 0 <= i < |a| ==> Lower(a[i]) == Lower(b[i])
  }

  function SplitAtCommas(s: Bytes): (parts: seq<Bytes>)
    ensures parts != []
  {
    if s == [] then [[]]
    else if s[0] == COMMA then [[]] + SplitAtCommas(s[1..])
    else var parts := SplitAtCommas(s[1..]); [[s[0]] + parts[0]] + parts[1..]
  }

  function Trim(s: Bytes): Bytes {
    TrimEnd(TrimStart(s))
  }

  /** The trimmed parts, without the empty ones. */
  function NonEmpty(parts: seq<Bytes>): seq<Bytes> {
    if parts == [] then []
    else (if Trim(parts[0]) == [] then [] else [Trim(parts[0])]) + NonEmpty(parts[1..])
  }

  function Values(value: Bytes): seq<Bytes> {
    NonEmpty(SplitAtCommas(value))
  }

  /** All the list members of the fields of that name, in order. */
  function HeaderValues(headers: seq<Header>, name: Bytes): seq<Bytes> {
    if headers == [] then []
    else
      (if SameIgnoringCase(headers[0].name, name) then Values(headers[0].value) else [])
      + HeaderValues(headers[1..], name)
  }

  // --------------------------------------------------------------- content length

  function DecimalValue(digits: Bytes): Option<nat> {
    if digits == [] then Some(0) else
    match DecimalValue(digits[..|digits| - 1])
    case None => None
    case Some(high) =>
      var d := digits[|digits| - 1];
      if 48 <= d <= 57 then Some(10 * high + (d - 48)) else None
  }

  /** str::parse::<usize> */
  function ParseUsize(text: Bytes): Option<nat> {
    var digits := if text != [] && text[0] == 43 then text[1..] else text;
    if digits == [] then None else
    match DecimalValue(digits)
    case Some(v) => if v <= USIZE_MAX then Some(v) else None
    case None => None
  }

  predicate AllState(values: seq<Bytes>, n: nat) {
    forall i :: 0 <= i < |values| ==> ParseUsize(values[i]) == Some(n)
  }

  lemma Conflict(values: seq<Bytes>, i: nat)
    requires i < |values| && ParseUsize(values[i]) != ParseUsize(values[0])
    ensures forall n: nat :: !AllState(values, n)
  {
  }

  /** A length that all the members state; an error when one is invalid or two differ. */
  method ContentLength(headers: seq<Header>) returns (r: Result<Option<nat>, string>)
    ensures var values := HeaderValues(headers, CONTENT_LENGTH);
            && (r == Ok(None) <==> values == [])
            && (r.Ok? && r.value.Some? ==> AllState(values, r.value.value))
            && (r.Err? <==> values != [] && forall n: nat :: !AllState(values, n))
  {
    var values := HeaderValues(headers, CONTENT_LENGTH);
    if values == [] {
      return Ok(None);
    }
    var expected := ParseUsize(values[0]);
    if expected.None? {
      return Err("Invalid HTTP Content-Length");
    }
    for i := 1 to |values|
      invariant forall j :: 0 <= j < i ==> ParseUsize(values[j]) == expected
    {
      var value := ParseUsize(values[i]);
      if value.None? {
        return Err("Invalid HTTP Content-Length");
      }
      if value != expected {
        Conflict(values, i);
        return Err("HTTP response contains conflicting Content-Length values");
      }
    }
    assert AllState(values, expected.value);
    return Ok(expected);
  }

  // ---------------------------------------------------------------------- framing

  predicate HasNoBody(status: nat) {
    status == 101 || status == 204 || status == 304
  }

  /** The body that follows a head, from its status and the two lists; None when it is refused. */
  ghost function Framing(status: nat, lengths: seq<Bytes>, codings: seq<Bytes>): Option<Mode> {
    if HasNoBody(status) then Some(Empty)
    else if lengths != [] && forall n: nat :: !AllState(lengths, n) then None
    else if codings != [] then
      if lengths == [] && |codings| == 1 && SameIgnoringCase(codings[0], CHUNKED) then Some(Chunked(0, false)) else None
    else if lengths == [] then Some(CloseDelimited)
    else Some(Fixed(ParseUsize(lengths[0]).value))
  }

  ghost function FramingOf(head: Head): Option<Mode> {
    Framing(head.status, HeaderValues(head.headers, CONTENT_LENGTH), HeaderValues(head.headers, TRANSFER_ENCODING))
  }

  method SelectFraming(head: Head) returns (r: Result<Mode, string>)
    ensures match FramingOf(head)
            case Some(mode) => r == Ok(mode)
            case None => r.Err?
  {
    if HasNoBody(head.status) {
      return Ok(Empty);
    }
    var length := ContentLength(head.headers);
    if length.Err? {
      return Err(length.error);
    }
    var codings := HeaderValues(head.headers, TRANSFER_ENCODING);
    if codings == [] {
      match length.value {
        case Some(n) => return Ok(Fixed(n));
        case None => return Ok(CloseDelimited);
      }
    }
    if length.value.Some? {
      return Err("HTTP response contains both Transfer-Encoding and Content-Length");
    }
    if |codings| != 1 || !SameIgnoringCase(codings[0], CHUNKED) {
      return Err("Unsupported HTTP Transfer-Encoding");
    }
    return Ok(Chunked(0, false));
  }

  predicate Informational(status: nat) {
    100 <= status < 200 && status != 101
  }

  /** Skip informational heads; each element is the outcome of one read_head. */
  method FinalHead(heads: seq<Result<Head, string>>) returns (r: Result<Head, string>)
    ensures r.Ok? <==> exists k :: 0 <= k < |heads| && k <= MAX_INFORMATIONAL && IsFinal(heads, k)
    ensures r.Ok? ==>
              exists k :: 0 <= k < |heads| && k <= 8 && heads[k] == r
                          && (r.value.status < 100 || r.value.status > 199 || r.value.status == 101)
                          && forall i :: 0 <= i < k ==> heads[i].Ok? && 100 <= heads[i].value.status <= 199
                                                        && heads[i].value.status != 101
    ensures r.Err? ==>
              forall k :: 0 <= k < |heads| && k <= 8 ==>
                            heads[k].Err? || (100 <= heads[k].value.status <= 199 && heads[k].value.status != 101)
                            || exists i :: 0 <= i < k && heads[i].Err?
  {
    var informational: nat := 0;
    var k := 0;
    while k < |heads|
      invariant k == informational <= |heads| && informational <= MAX_INFORMATIONAL
      invariant forall i :: 0 <= i < k ==> heads[i].Ok? && Informational(heads[i].value.status)
    {
      if heads[k].Err? {
        return Err(heads[k].error);
      }
      if !Informational(heads[k].value.status) {
        assert IsFinal(heads, k);
        return heads[k];
      }
      informational := informational + 1;
      if informational > MAX_INFORMATIONAL {
        return Err("HTTP response contained too many informational responses");
      }
      k := k + 1;
    }
    return Err("HTTP status line is not complete");
  }

  /** Head k is the first that is not informational, and all up to it could be read. */
  predicate IsFinal(heads: seq<Result<Head, string>>, k: nat)
    requires k < |heads|
  {
    && (forall i :: 0 <= i <= k ==> heads[i].Ok?)
    && (forall i :: 0 <= i < k ==> Informational(heads[i].value.status))
    && !Informational(heads[k].value.status)
  }

  /** The response body: its first maxBodySize bytes and its full length. */
  method ReadBody(head: Head, reader: FragmentedReader, maxBodySize: nat)
    returns (r: Result<(Bytes, nat), string>)
    modifies reader
    ensures match FramingOf(head)
            case None => r.Err? && reader.rest == old(reader.rest)
            case Some(mode) =>
              match Owed(mode, old(reader.rest))
              case None => r.Err?
              case Some((data, after)) =>
                if |data| <= USIZE_MAX then
                  r == Ok((data[..Min(maxBodySize, |data|)], |data|)) && reader.rest == after
                else r.Err?
  {
    var mode := SelectFraming(head);
    if mode.Err? {
      return Err(mode.error);
    }
    var body := new BodyReader(reader, mode.value);
    r := body.CollectBody(maxBodySize);
  }

  // ------------------------------------------------------------ names and statuses

  /** The names that count, in letters of either case. */
  lemma ContentLengthName(a: Bytes)
    ensures SameIgnoringCase(a, CONTENT_LENGTH) <==>
            |a| == 14 && forall i :: 0 <= i < 14 ==>
                                       a[i] as char == "content-length"[i] || a[i] as char == "CONTENT-LENGTH"[i]
  {
    forall i | 0 <= i < 14 && |a| == 14 {
      Spelled(a[i], CONTENT_LENGTH[i], "content-length"[i], "CONTENT-LENGTH"[i]);
    }
  }

  lemma TransferEncodingName(a: Bytes)
    ensures SameIgnoringCase(a, TRANSFER_ENCODING) <==>
            |a| == 17 && forall i :: 0 <= i < 17 ==>
                                       a[i] as char == "transfer-encoding"[i] || a[i] as char == "TRANSFER-ENCODING"[i]
  {
    forall i | 0 <= i < 17 && |a| == 17 {
      Spelled(a[i], TRANSFER_ENCODING[i], "transfer-encoding"[i], "TRANSFER-ENCODING"[i]);
    }
  }

  lemma ChunkedName(a: Bytes)
    ensures SameIgnoringCase(a, CHUNKED) <==>
            |a| == 7 && forall i :: 0 <= i < 7 ==> a[i] as char == "chunked"[i] || a[i] as char == "CHUNKED"[i]
  {
    forall i | 0 <= i < 7 && |a| == 7 {
      Spelled(a[i], CHUNKED[i], "chunked"[i], "CHUNKED"[i]);
    }
  }

  lemma Spelled(b: Byte, c: Byte, lower: char, upper: char)
    requires lower as int == c && ((97 <= c <= 122 && upper as int == c - 32) || (c == 45 && upper == lower))
    ensures Lower(b) == Lower(c) <==> b as char == lower || b as char == upper
  {
  }

  /** Which framing the status and the two lists ask for. */
  lemma FramingTable(status: nat, lengths: seq<Bytes>, codings: seq<Bytes>, n: nat)
    ensures status == 101 || status == 204 || status == 304 ==> Framing(status, lengths, codings) == Some(Empty)
    ensures status != 101 && status != 204 && status != 304 ==>
              && (lengths == [] && codings == [] ==> Framing(status, lengths, codings) == Some(CloseDelimited))
              && (lengths == [] && |codings| == 1 ==>
                    Framing(status, lengths, codings) ==
                    if SameIgnoringCase(codings[0], CHUNKED) then Some(Chunked(0, false)) else None)
              && (codings != [] && (lengths != [] || |codings| > 1) ==> Framing(status, lengths, codings) == None)
              && (lengths != [] && codings == [] ==>
                    (Framing(status, lengths, codings) == Some(Fixed(n)) <==>
                     forall i :: 0 <= i < |lengths| ==> ParseUsize(lengths[i]) == Some(n)))
              && (lengths != [] && codings == [] ==>
                    match Framing(status, lengths, codings) case Some(mode) => mode.Fixed? case None => true)
  {
    if lengths != [] {
      assert AllState(lengths, n) ==> ParseUsize(lengths[0]) == Some(n);
    }
  }

  /** Without the two fields the body ends with the connection; three statuses never have one. */
  lemma HeadWithoutFields(status: nat, headers: seq<Header>)
    ensures status == 101 || status == 204 || status == 304 ==> FramingOf(Head(status, headers)) == Some(Empty)
    ensures status != 101 && status != 204 && status != 304 && Unrelated(headers) ==>
              FramingOf(Head(status, headers)) == Some(CloseDelimited)
  {
    if Unrelated(headers) {
      UnrelatedValues(headers);
    }
  }

  // -------------------------------------------------------------- list semantics

  lemma {:induction false} SplitJoined(a: Bytes, b: Bytes)
    ensures SplitAtCommas(a + [COMMA] + b) == SplitAtCommas(a) + SplitAtCommas(b)
  {
    var s := a + [COMMA] + b;
    if a == [] {
      assert s[1..] == b;
    } else {
      assert s[1..] == a[1..] + [COMMA] + b;
      SplitJoined(a[1..], b);
    }
  }

  lemma {:induction false} NonEmptyConcat(a: seq<Bytes>, b: seq<Bytes>)
    ensures NonEmpty(a + b) == NonEmpty(a) + NonEmpty(b)
  {
    if a == [] {
      assert a + b == b;
    } else {
      assert (a + b)[1..] == a[1..] + b;
      NonEmptyConcat(a[1..], b);
    }
  }

  lemma {:induction false} HeaderValuesConcat(a: seq<Header>, b: seq<Header>, name: Bytes)
    ensures HeaderValues(a + b, name) == HeaderValues(a, name) + HeaderValues(b, name)
  {
    if a == [] {
      assert a + b == b;
    } else {
      assert (a + b)[1..] == a[1..] + b;
      HeaderValuesConcat(a[1..], b, name);
    }
  }

  lemma OneHeader(h: Header, name: Bytes)
    ensures HeaderValues([h], name) == if SameIgnoringCase(h.name, name) then Values(h.value) else []
  {
    assert [h][1..] == [];
  }

  /** A field sent twice means the same as one field with both values and a comma. */
  lemma JoinedFieldsMeanTheSame(before: seq<Header>, name: Bytes, v: Bytes, w: Bytes, after: seq<Header>, wanted: Bytes)
    ensures HeaderValues(before + [Header(name, v), Header(name, w)] + after, wanted) ==
            HeaderValues(before + [Header(name, v + [COMMA] + w)] + after, wanted)
  {
    var one, two := Header(name, v), Header(name, w);
    var joined := Header(name, v + [COMMA] + w);
    assert [one, two] == [one] + [two];
    HeaderValuesConcat([one], [two], wanted);
    OneHeader(one, wanted);
    OneHeader(two, wanted);
    OneHeader(joined, wanted);
    SplitJoined(v, w);
    NonEmptyConcat(SplitAtCommas(v), SplitAtCommas(w));
    Inside(before, [one, two], after, wanted);
    Inside(before, [joined], after, wanted);
  }

  lemma Inside(before: seq<Header>, middle: seq<Header>, after: seq<Header>, name: Bytes)
    ensures HeaderValues(before + middle + after, name) ==
            HeaderValues(before, name) + HeaderValues(middle, name) + HeaderValues(after, name)
  {
    HeaderValuesConcat(before + middle, after, name);
    HeaderValuesConcat(before, middle, name);
  }

  /** Fields of different names can be sent in either order. */
  lemma OrderOfNamesIsFree(before: seq<Header>, h: Header, g: Header, after: seq<Header>, wanted: Bytes)
    requires !SameIgnoringCase(h.name, g.name)
    ensures HeaderValues(before + [h, g] + after, wanted) == HeaderValues(before + [g, h] + after, wanted)
  {
    assert [h, g] == [h] + [g] && [g, h] == [g] + [h];
    HeaderValuesConcat([h], [g], wanted);
    HeaderValuesConcat([g], [h], wanted);
    OneHeader(h, wanted);
    OneHeader(g, wanted);
    Inside(before, [h, g], after, wanted);
    Inside(before, [g, h], after, wanted);
  }

  // -------------------------------------------------------------------- end to end

  function Decimal(n: nat): Bytes {
    if n < 10 then [48 + n] else Decimal(n / 10) + [48 + n % 10]
  }

  lemma {:induction false} DecimalRoundTrip(n: nat)
    ensures DecimalValue(Decimal(n)) == Some(n)
    ensures forall i :: 0 <= i < |Decimal(n)| ==> 48 <= Decimal(n)[i] <= 57
    ensures Decimal(n) != []
  {
    if n < 10 {
      assert [48 + n][..0] == [] && DecimalValue([]) == Some(0);
    } else {
      DecimalRoundTrip(n / 10);
      var d := Decimal(n);
      assert d[..|d| - 1] == Decimal(n / 10) && d[|d| - 1] == 48 + n % 10;
    }
  }

  lemma PlainValue(text: Bytes)
    requires text != [] && COMMA !in text && !IsSpace(text[0]) && !IsSpace(text[|text| - 1])
    ensures Values(text) == [text]
  {
    NoComma(text);
    assert Trim(text) == text;
    assert [text][1..] == [];
    assert NonEmpty([text]) == [text] + NonEmpty([text][1..]);
  }

  lemma {:induction false} NoComma(text: Bytes)
    requires COMMA !in text
    ensures SplitAtCommas(text) == [text]
  {
    if text != [] {
      NoComma(text[1..]);
      assert [text[0]] + text[1..] == text;
    }
  }

  /** The members of a list: commas separate them, blanks around them go, and empty ones do not count. */
  lemma ValuesJoin(v: Bytes, w: Bytes)
    ensures Values(v + [44] + w) == Values(v) + Values(w)
  {
    SplitJoined(v, w);
    NonEmptyConcat(SplitAtCommas(v), SplitAtCommas(w));
  }

  lemma OneMember(lead: Bytes, text: Bytes, trail: Bytes)
    requires forall i :: 0 <= i < |lead| ==> lead[i] == 32 || 9 <= lead[i] <= 13
    requires forall i :: 0 <= i < |trail| ==> trail[i] == 32 || 9 <= trail[i] <= 13
    requires 44 !in text
    requires text != [] ==> !(text[0] == 32 || 9 <= text[0] <= 13)
    requires text != [] ==> !(text[|text| - 1] == 32 || 9 <= text[|text| - 1] <= 13)
    ensures Values(lead + text + trail) == if text == [] then [] else [text]
  {
    var value := lead + text + trail;
    var parts := [value];
    NoComma(value);
    assert parts[1..] == [];
    if text == [] {
      AllBlank(value);
      assert NonEmpty(parts) == [] + NonEmpty(parts[1..]);
    } else {
      Assoc(lead, text, trail);
      TrimLead(lead, text + trail);
      TrimBlanks(text, trail);
      assert NonEmpty(parts) == [text] + NonEmpty(parts[1..]);
    }
  }

  lemma {:induction false} AllBlank(s: Bytes)
    requires forall i :: 0 <= i < |s| ==> IsSpace(s[i])
    ensures Trim(s) == []
  {
    if s != [] {
      AllBlank(s[1..]);
    }
  }

  /** Decimal digits, most significant first. */
  lemma DecimalTable(n: nat)
    ensures var d := Decimal(n);
            && d != [] && d[|d| - 1] as char == "0123456789"[n % 10]
            && d[..|d| - 1] == if n < 10 then [] else Decimal(n / 10)
  {
    var t := "0123456789";
    assert t[0] == '0' && forall i :: 0 <= i < 10 ==> t[i] as int == 48 + i;
  }

  lemma {:induction false} DecimalZeros(zeros: Bytes, digits: Bytes)
    requires forall i :: 0 <= i < |zeros| ==> zeros[i] == 48
    ensures DecimalValue(zeros + digits) == DecimalValue(digits)
  {
    var all := zeros + digits;
    if digits != [] {
      assert all[..|all| - 1] == zeros + digits[..|digits| - 1];
      DecimalZeros(zeros, digits[..|digits| - 1]);
    } else if zeros != [] {
      assert all[..|all| - 1] == zeros[..|zeros| - 1] + [];
      DecimalZeros(zeros[..|zeros| - 1], []);
    }
  }

  lemma {:induction false} ValueHasDigits(digits: Bytes)
    ensures DecimalValue(digits).Some? <==> forall i :: 0 <= i < |digits| ==> 48 <= digits[i] <= 57
  {
    if digits != [] {
      ValueHasDigits(digits[..|digits| - 1]);
      assert digits == digits[..|digits| - 1] + [digits[|digits| - 1]];
    }
  }

  /** A length is an optional plus sign and decimal digits, leading zeros included, that fit in 64 bits. */
  lemma LengthText(plus: Bytes, zeros: Bytes, n: nat)
    requires (plus == [] || plus == [43]) && forall i :: 0 <= i < |zeros| ==> zeros[i] == 48
    ensures ParseUsize(plus + zeros + Decimal(n)) == if n <= 18446744073709551615 then Some(n) else None
  {
    var digits := zeros + Decimal(n);
    DecimalRoundTrip(n);
    DecimalZeros(zeros, Decimal(n));
    Assoc(plus, zeros, Decimal(n));
    assert digits[0] != 43;
    assert (plus + digits)[|plus|..] == digits;
  }

  lemma LengthIsDigits(text: Bytes)
    ensures ParseUsize(text).Some? ==>
              var digits := if text[0] == 43 then text[1..] else text;
              digits != [] && forall i :: 0 <= i < |digits| ==> 48 <= digits[i] <= 57
  {
    if ParseUsize(text).Some? {
      ValueHasDigits(if text[0] == 43 then text[1..] else text);
    }
  }

  /** Fields that say nothing about the framing. */
  predicate Unrelated(headers: seq<Header>) {
    forall i :: 0 <= i < |headers| ==>
      !SameIgnoringCase(headers[i].name, CONTENT_LENGTH) && !SameIgnoringCase(headers[i].name, TRANSFER_ENCODING)
  }

  lemma {:induction false} UnrelatedValues(headers: seq<Header>)
    requires Unrelated(headers)
    ensures HeaderValues(headers, CONTENT_LENGTH) == [] && HeaderValues(headers, TRANSFER_ENCODING) == []
  {
    if headers != [] {
      UnrelatedValues(headers[1..]);
    }
  }

  /** Among unrelated fields, one field decides. */
  lemma OneFieldDecides(before: seq<Header>, h: Header, after: seq<Header>, name: Bytes)
    requires Unrelated(before) && Unrelated(after) && (name == CONTENT_LENGTH || name == TRANSFER_ENCODING)
    ensures HeaderValues(before + [h] + after, name) == if SameIgnoringCase(h.name, name) then Values(h.value) else []
  {
    Inside(before, [h], after, name);
    UnrelatedValues(before);
    UnrelatedValues(after);
    OneHeader(h, name);
  }

  lemma DifferentFields(name: Bytes)
    ensures SameIgnoringCase(name, CONTENT_LENGTH) ==> !SameIgnoringCase(name, TRANSFER_ENCODING)
  {
  }

  /**
   A response that states its length, among any other fields, is framed by it, and
   the next response is left unread.
   */
  lemma LengthFramesBody(status: nat, before: seq<Header>, name: Bytes, after: seq<Header>, body: Bytes, rest: Bytes)
    requires status != 101 && status != 204 && status != 304 && |body| <= 18446744073709551615
    requires Unrelated(before) && Unrelated(after) && SameIgnoringCase(name, CONTENT_LENGTH)
    ensures FramingOf(Head(status, before + [Header(name, Decimal(|body|))] + after)) == Some(Fixed(|body|))
    ensures Owed(Fixed(|body|), body + rest) == Some((body, rest))
  {
    LengthHead(before, name, after, |body|);
    DecimalRoundTrip(|body|);
    FixedFraming(status, Decimal(|body|), |body|);
    assert (body + rest)[..|body|] == body && (body + rest)[|body|..] == rest;
  }

  lemma LengthHead(before: seq<Header>, name: Bytes, after: seq<Header>, n: nat)
    requires Unrelated(before) && Unrelated(after) && SameIgnoringCase(name, CONTENT_LENGTH)
    ensures var headers := before + [Header(name, Decimal(n))] + after;
            HeaderValues(headers, CONTENT_LENGTH) == [Decimal(n)] && HeaderValues(headers, TRANSFER_ENCODING) == []
  {
    var text := Decimal(n);
    DecimalRoundTrip(n);
    PlainValue(text);
    DifferentFields(name);
    OneFieldDecides(before, Header(name, text), after, CONTENT_LENGTH);
    OneFieldDecides(before, Header(name, text), after, TRANSFER_ENCODING);
  }

  lemma FixedFraming(status: nat, text: Bytes, n: nat)
    requires !HasNoBody(status) && DecimalValue(text) == Some(n) && text != [] && text[0] != 43 && n <= USIZE_MAX
    ensures Framing(status, [text], []) == Some(Fixed(n))
  {
    assert AllState([text], n);
  }

  lemma ChunkedFraming(status: nat)
    requires !HasNoBody(status)
    ensures Framing(status, [], [CHUNKED]) == Some(Chunked(0, false))
  {
  }

  lemma ChunksAreOwed(e: Encoding, rest: Bytes)
    requires ValidEncoding(e)
    ensures Owed(Chunked(0, false), Render(e) + rest) == Some((Body(e), rest))
  {
    EncodingRoundTrip(e, rest);
  }

  lemma ChunkedHead(before: seq<Header>, name: Bytes, after: seq<Header>)
    requires Unrelated(before) && Unrelated(after) && SameIgnoringCase(name, TRANSFER_ENCODING)
    ensures var headers := before + [Header(name, CHUNKED)] + after;
            HeaderValues(headers, CONTENT_LENGTH) == [] && HeaderValues(headers, TRANSFER_ENCODING) == [CHUNKED]
  {
    PlainValue(CHUNKED);
    DifferentFields(name);
    OneFieldDecides(before, Header(name, CHUNKED), after, CONTENT_LENGTH);
    OneFieldDecides(before, Header(name, CHUNKED), after, TRANSFER_ENCODING);
  }

  /** A response that states a chunked coding, among any other fields, is framed by any valid encoding of its body. */
  lemma ChunksFrameBody(status: nat, before: seq<Header>, name: Bytes, after: seq<Header>, e: Encoding, rest: Bytes)
    requires status != 101 && status != 204 && status != 304 && ValidEncoding(e)
    requires Unrelated(before) && Unrelated(after) && SameIgnoringCase(name, TRANSFER_ENCODING)
    ensures FramingOf(Head(status, before + [Header(name, CHUNKED)] + after)) == Some(Chunked(0, false))
    ensures Owed(Chunked(0, false), Render(e) + rest) == Some((Body(e), rest))
  {
    ChunkedHead(before, name, after);
    ChunkedFraming(status);
    ChunksAreOwed(e, rest);
  }
}

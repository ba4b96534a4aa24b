/**
 HTTP/1.1 response body framing (native/src/raw_http.rs; sections 6.3 and 7.1 of
 RFC 9112).

 The decoder pulls bytes from a reader that may deliver them in pieces of any
 size, into output buffers of any size. Its reference is a parser over the whole
 remaining input; what the decoder produces must not depend on the pieces.
 */
module HttpFraming {
  import opened Wrappers
  import opened ByteStrings

  const SEMICOLON: Byte := 59
  const COLON: Byte := 58
  const MAX_CHUNK_LINE_SIZE: nat := 8 * 1024
  const MAX_HEADER_SIZE: nat := 64 * 1024
  const USIZE_MAX: nat := 0xFFFF_FFFF_FFFF_FFFF

  // ---------------------------------------------------------------- reference

  /** Index of the first LF at or after i, or the length. */
  function FindLf(input: Bytes, i: nat): (p: nat)
    requires i <= |input|
    ensures i <= p <= |input|
    ensures forall k :: i <= k < p ==> input[k] != LF
    ensures p < |input| ==> input[p] == LF
    decreases |input| - i
  {
    if i == |input| || input[i] == LF then i else FindLf(input, i + 1)
  }

  /** One CRLF-terminated line of at most limit bytes, CRLF included, and the rest. */
  function ParseLine(input: Bytes, limit: nat): Option<(Bytes, Bytes)> {
    var p := FindLf(input, 0);
    if p < |input| && p + 1 <= limit && p >= 1 && input[p - 1] == CR
    then Some((input[..p - 1], input[p + 1..]))
    else None
  }

  lemma ParseLineShrinks(input: Bytes, limit: nat)
    ensures ParseLine(input, limit).Some? ==> |ParseLine(input, limit).value.1| < |input|
  {
  }

  predicate IsSpace(b: Byte) {
    b == 32 || 9 <= b <= 13
  }

  function TrimStart(s: Bytes): Bytes {
    if s != [] && IsSpace(s[0]) then TrimStart(s[1..]) else s
  }

  function TrimEnd(s: Bytes): Bytes {
    if s != [] && IsSpace(s[|s| - 1]) then TrimEnd(s[..|s| - 1]) else s
  }

  /** The part of a chunk-size line before any extension. */
  function BeforeSemicolon(line: Bytes): Bytes {
    if line == [] || line[0] == SEMICOLON then [] else [line[0]] + BeforeSemicolon(line[1..])
  }

  /** The value of a digit string, or None on a bad digit. */
  function HexNumber(digits: Bytes): Option<nat> {
    if digits == [] then Some(0) else
    match (HexNumber(digits[..|digits| - 1]), HexValue(digits[|digits| - 1]))
    case (Some(high), Some(low)) => Some(16 * high + low)
    case _ => None
  }

  /** usize::from_str_radix(text, 16): an optional plus sign, at least one digit, no overflow. */
  function ParseHex(text: Bytes): Option<nat> {
    var digits := if text != [] && text[0] == 43 then text[1..] else text;
    if digits == [] then None else
    match HexNumber(digits)
    case Some(v) => if v <= USIZE_MAX then Some(v) else None
    case None => None
  }

  function ChunkSize(line: Bytes): Option<nat> {
    ParseHex(TrimEnd(TrimStart(BeforeSemicolon(line))))
  }

  /** Skip trailer lines up to the empty one; used counts the bytes of earlier lines. */
  function ParseTrailers(input: Bytes, used: nat): Option<Bytes>
    decreases |input|
  {
    if used + 2 > MAX_HEADER_SIZE then None else
    match ParseLine(input, MAX_HEADER_SIZE - used)
    case None => None
    case Some((line, rest)) =>
      if line == [] then Some(rest)
      else if COLON !in line then None
      else ParseTrailers(rest, used + |line| + 2)
  }

  /** The whole chunked body at the start of input, and what follows its trailers. */
  function ParseChunks(input: Bytes): Option<(Bytes, Bytes)>
    decreases |input|, 1
  {
    match ParseLine(input, MAX_CHUNK_LINE_SIZE)
    case None => None
    case Some((line, rest)) =>
      match ChunkSize(line)
      case None => None
      case Some(size) =>
        if size == 0 then
          match ParseTrailers(rest, 0)
          case None => None
          case Some(after) => Some(([], after))
        else
          ParseData(rest, size)
  }

  /** The last size bytes of the current chunk, its CRLF and the chunks after it. */
  function ParseData(input: Bytes, size: nat): Option<(Bytes, Bytes)>
    decreases |input|, 0
  {
    if |input| < size + 2 || input[size..size + 2] != [CR, LF] then None else
    match ParseChunks(input[size + 2..])
    case None => None
    case Some((data, after)) => Some((input[..size] + data, after))
  }

  // ------------------------------------------------------- what a decoder owes

  datatype Mode =
    | Empty
    | Fixed(remaining: nat)
    | CloseDelimited
    | Chunked(chunkRemaining: nat, finished: bool)

  /** The body still to come and the input left after it; None when the framing is broken. */
  function Owed(mode: Mode, rest: Bytes): Option<(Bytes, Bytes)> {
    match mode
    case Empty => Some(([], rest))
    case Fixed(remaining) => if |rest| < remaining then None else Some((rest[..remaining], rest[remaining..]))
    case CloseDelimited => Some((rest, []))
    case Chunked(size, finished) =>
      if finished then Some(([], rest)) else if size == 0 then ParseChunks(rest) else ParseData(rest, size)
  }

  /** Taking part of the current chunk leaves the rest of the parse as it was. */
  lemma ParseDataSplit(input: Bytes, size: nat, k: nat)
    requires 0 < k < size && k <= |input|
    ensures ParseData(input, size) ==
            match ParseData(input[k..], size - k)
            case Some((data, after)) => Some((input[..k] + data, after))
            case None => None
  {
    if |input| >= size + 2 {
      assert input[k..][size - k..size - k + 2] == input[size..size + 2];
      assert input[k..][size - k + 2..] == input[size + 2..];
      assert input[..size] == input[..k] + input[k..][..size - k];
      match ParseChunks(input[size + 2..])
      case Some((data, after)) => assert input[..size] + data == input[..k] + (input[k..][..size - k] + data);
      case None =>
    }
  }

  lemma FixedSplit(input: Bytes, piece: Bytes, rest: Bytes, remaining: nat)
    requires input == piece + rest && |piece| <= remaining <= |input|
    ensures piece <= input[..remaining]
    ensures input[..remaining][|piece|..] == rest[..remaining - |piece|]
    ensures input[remaining..] == rest[remaining - |piece|..]
  {
  }

  /** A source of bytes that delivers any non-empty piece of what is left. */
  class FragmentedReader {
    var rest: Bytes

    constructor (input: Bytes)
      ensures rest == input
    {
      rest := input;
    }

    method Read(max: nat) returns (got: Bytes)
      modifies this
      ensures old(rest) == got + rest && |got| <= max
      ensures got == [] <==> max == 0 || old(rest) == []
    {
      if max == 0 || rest == [] {
        got := [];
      } else {
        var k :| 1 <= k <= max && k <= |rest|;
        got, rest := rest[..k], rest[k..];
      }
    }

    /** Exactly n bytes, or None at the end of the input. */
    method ReadExact(n: nat) returns (got: Option<Bytes>)
      modifies this
      ensures got.Some? <==> n <= |old(rest)|
      ensures got.Some? ==> got.value == old(rest)[..n] && rest == old(rest)[n..]
      ensures |rest| <= |old(rest)|
    {
      var taken: Bytes := [];
      while |taken| < n
        invariant old(rest) == taken + rest && |taken| <= n
      {
        var piece := Read(n - |taken|);
        if piece == [] {
          return None;
        }
        taken := taken + piece;
      }
      got := Some(taken);
    }

    /** One line, read byte by byte. */
    method ReadCrlfLine(limit: nat) returns (line: Option<Bytes>)
      modifies this
      ensures match ParseLine(old(rest), limit)
              case Some((text, after)) => line == Some(text) && rest == after
              case None => line == None
      ensures |rest| <= |old(rest)|
    {
      var taken: Bytes := [];
      var input := rest;
      while true
        invariant |taken| <= |input| && taken == input[..|taken|] && rest == input[|taken|..]
        invariant |taken| <= limit
        invariant forall k :: 0 <= k < |taken| ==> input[k] != LF
        decreases |rest|
      {
        var byte := Read(1);
        if byte == [] {
          return None;
        }
        assert input[|taken|] == byte[0];
        taken := taken + byte;
        assert taken == input[..|taken|] && rest == input[|taken|..];
        if |taken| > limit {
          FindLfAt(input, |taken| - 1);
          return None;
        }
        if byte[0] == LF {
          FindLfIs(input, |taken| - 1);
          if |taken| < 2 || taken[|taken| - 2] != CR {
            return None;
          }
          assert taken[..|taken| - 2] == input[..|taken| - 2];
          return Some(taken[..|taken| - 2]);
        }
      }
    }

    /** Skip the trailer section. */
    method ReadTrailers() returns (ok: bool)
      modifies this
      ensures match ParseTrailers(old(rest), 0)
              case Some(after) => ok && rest == after
              case None => !ok
      ensures |rest| <= |old(rest)|
    {
      var totalSize: nat := 0;
      while true
        invariant ParseTrailers(rest, totalSize) == ParseTrailers(old(rest), 0)
        invariant |rest| <= |old(rest)|
        decreases |rest|
      {
        if totalSize + 2 > MAX_HEADER_SIZE {
          return false;
        }
        ParseLineShrinks(rest, MAX_HEADER_SIZE - totalSize);
        var line := ReadCrlfLine(MAX_HEADER_SIZE - totalSize);
        if line.None? {
          return false;
        }
        totalSize := totalSize + |line.value| + 2;
        if line.value == [] {
          return true;
        }
        if COLON !in line.value {
          return false;
        }
      }
    }
  }

  lemma {:induction false} FindLfFrom(input: Bytes, i: nat, j: nat)
    requires i <= j <= |input|
    requires forall k :: i <= k < j ==> input[k] != LF
    ensures FindLf(input, i) == FindLf(input, j)
    decreases j - i
  {
    if i < j {
      FindLfFrom(input, i + 1, j);
    }
  }

  lemma FindLfIs(input: Bytes, p: nat)
    requires p < |input| && input[p] == LF && forall k :: 0 <= k < p ==> input[k] != LF
    ensures FindLf(input, 0) == p
  {
    FindLfFrom(input, 0, p);
  }

  lemma FindLfAt(input: Bytes, p: nat)
    requires p < |input| && forall k :: 0 <= k < p ==> input[k] != LF
    ensures FindLf(input, 0) >= p
  {
    FindLfFrom(input, 0, p);
  }

  class BodyReader {
    const reader: FragmentedReader
    var mode: Mode

    constructor (reader: FragmentedReader, mode: Mode)
      ensures this.reader == reader && this.mode == mode
    {
      this.reader, this.mode := reader, mode;
    }

    /**
     Fill a buffer of max bytes. Any piece returned is the next part of the owed
     body; an empty piece means the body is complete and the input stands exactly
     after it. A broken framing is never reported as complete.
     */
    method Read(max: nat) returns (r: Result<Bytes, string>)
      requires max > 0
      modifies this`mode, reader
      ensures match old(Owed(mode, reader.rest))
              case Some((data, after)) =>
                && r.Ok? && |r.value| <= max && r.value <= data
                && Owed(mode, reader.rest) == Some((data[|r.value|..], after))
                && (r.value == [] ==> data == [] && reader.rest == after)
              case None =>
                r.Ok? ==> r.value != [] && Owed(mode, reader.rest) == None
      ensures r.Ok? && r.value != [] ==> |reader.rest| < |old(reader.rest)|
    {
      ghost var input := reader.rest;
      match mode {
        case Empty => r := Ok([]);
        case CloseDelimited =>
          r := ReadUntilClose(max);
          assert reader.rest == input[|r.value|..];
        case Fixed(remaining) =>
          r := ReadFixed(max, remaining);
          if r.Ok? && |input| >= remaining {
            FixedSplit(input, r.value, reader.rest, remaining);
          }
        case Chunked(chunkRemaining, finished) =>
          if finished {
            return Ok([]);
          }
          if chunkRemaining > 0 {
            r := ReadData(max, chunkRemaining);
          } else {
            r := ReadNextChunk(max);
          }
      }
    }

    method ReadUntilClose(max: nat) returns (r: Result<Bytes, string>)
      requires mode.CloseDelimited? && max > 0
      modifies reader
      ensures r.Ok? && |r.value| <= max && old(reader.rest) == r.value + reader.rest
      ensures r.value == [] <==> old(reader.rest) == []
    {
      var piece := reader.Read(max);
      r := Ok(piece);
    }

    method ReadFixed(max: nat, remaining: nat) returns (r: Result<Bytes, string>)
      requires mode == Fixed(remaining) && max > 0
      modifies this`mode, reader
      ensures r.Err? <==> remaining > 0 && old(reader.rest) == []
      ensures r.Ok? ==>
                && |r.value| <= max && |r.value| <= remaining && old(reader.rest) == r.value + reader.rest
                && mode == Fixed(remaining - |r.value|) && (r.value == [] <==> remaining == 0)
    {
      if remaining == 0 {
        return Ok([]);
      }
      var piece := reader.Read(Min(max, remaining));
      if piece == [] {
        return Err("HTTP response ended before Content-Length bytes were received");
      }
      mode := Fixed(remaining - |piece|);
      r := Ok(piece);
    }

    /** A piece of the current chunk; its terminator is consumed with the last one. */
    method ReadData(max: nat, size: nat) returns (r: Result<Bytes, string>)
      requires max > 0 && size > 0 && mode == Chunked(size, false)
      modifies this`mode, reader
      ensures match ParseData(old(reader.rest), size)
              case Some((data, after)) =>
                && r.Ok? && r.value != [] && |r.value| <= max && r.value <= data
                && Owed(mode, reader.rest) == Some((data[|r.value|..], after))
              case None => r.Ok? ==> r.value != [] && Owed(mode, reader.rest) == None
      ensures r.Ok? ==> |reader.rest| < |old(reader.rest)|
    {
      ghost var input := reader.rest;
      var piece := reader.Read(Min(max, size));
      if piece == [] {
        return Err("HTTP response ended inside a chunked body");
      }
      assert piece == input[..|piece|] && reader.rest == input[|piece|..];
      mode := Chunked(size - |piece|, false);
      if |piece| < size {
        ParseDataSplit(input, size, |piece|);
        return Ok(piece);
      }
      var terminator := reader.ReadExact(2);
      if terminator.None? {
        return Err("HTTP response ended inside a chunked body");
      }
      assert terminator.value == input[size..size + 2] && reader.rest == input[size + 2..];
      if terminator.value != [CR, LF] {
        return Err("HTTP chunked body is missing a chunk terminator");
      }
      r := Ok(piece);
    }

    /** The next size line, and then its data or the trailers. */
    method ReadNextChunk(max: nat) returns (r: Result<Bytes, string>)
      requires max > 0 && mode == Chunked(0, false)
      modifies this`mode, reader
      ensures match ParseChunks(old(reader.rest))
              case Some((data, after)) =>
                && r.Ok? && |r.value| <= max && r.value <= data
                && Owed(mode, reader.rest) == Some((data[|r.value|..], after))
                && (r.value == [] ==> data == [] && reader.rest == after)
              case None => r.Ok? ==> r.value != [] && Owed(mode, reader.rest) == None
      ensures r.Ok? && r.value != [] ==> |reader.rest| < |old(reader.rest)|
    {
      ParseLineShrinks(reader.rest, MAX_CHUNK_LINE_SIZE);
      var line := reader.ReadCrlfLine(MAX_CHUNK_LINE_SIZE);
      if line.None? {
        return Err("HTTP chunk size line is not complete");
      }
      var size := ChunkSize(line.value);
      if size.None? {
        return Err("HTTP chunked body contains an invalid chunk size");
      }
      mode := Chunked(size.value, false);
      if size.value == 0 {
        var ok := reader.ReadTrailers();
        if !ok {
          return Err("HTTP trailer section is not valid");
        }
        mode := Chunked(0, true);
        return Ok([]);
      }
      r := ReadData(max, size.value);
    }

    /**
     Read the whole body: its first maxBodySize bytes and its full length,
     whatever the pieces, leaving the input exactly after the framing.
     */
    method CollectBody(maxBodySize: nat) returns (r: Result<(Bytes, nat), string>)
      modifies this`mode, reader
      ensures match old(Owed(mode, reader.rest))
              case Some((data, after)) =>
                if |data| <= USIZE_MAX then
                  r == Ok((data[..Min(maxBodySize, |data|)], |data|)) && reader.rest == after
                else r.Err?
              case None => r.Err?
      ensures old(mode).Empty? ==> r == Ok(([], 0)) && reader.rest == old(reader.rest)
      ensures old(mode).CloseDelimited? && |old(reader.rest)| <= 18446744073709551615 ==>
                && r == Ok((old(reader.rest)[..Min(maxBodySize, |old(reader.rest)|)], |old(reader.rest)|))
                && reader.rest == []
      ensures old(mode).Fixed? && old(mode).remaining <= 18446744073709551615 ==>
                var n := old(mode).remaining;
                if |old(reader.rest)| < n then r.Err?
                else r == Ok((old(reader.rest)[..n][..Min(maxBodySize, n)], n)) && reader.rest == old(reader.rest)[n..]
    {
      r := CollectPieces(maxBodySize);
    }

    /** The loop over the pieces. */
    method CollectPieces(maxBodySize: nat) returns (r: Result<(Bytes, nat), string>)
      modifies this`mode, reader
      ensures match old(Owed(mode, reader.rest))
              case Some((data, after)) =>
                if |data| <= USIZE_MAX then
                  r == Ok((data[..Min(maxBodySize, |data|)], |data|)) && reader.rest == after
                else r.Err?
              case None => r.Err?
    {
      var body: Bytes := [];
      var decodedLength := 0;
      ghost var all: Bytes := [];
      ghost var owed := Owed(mode, reader.rest);
      while true
        invariant decodedLength == |all| <= USIZE_MAX && body == all[..Min(maxBodySize, |all|)]
        invariant match owed
                  case Some((data, after)) => all <= data && Owed(mode, reader.rest) == Some((data[|all|..], after))
                  case None => Owed(mode, reader.rest) == None
        decreases |reader.rest|
      {
        var piece := Read(8192);
        if piece.Err? {
          return Err(piece.error);
        }
        var got := piece.value;
        if got == [] {
          assert all == owed.value.0;
          return Ok((body, decodedLength));
        }
        if decodedLength + |got| > USIZE_MAX {
          return Err("HTTP response body length overflowed usize");
        }
        decodedLength := decodedLength + |got|;
        var remaining := Max(maxBodySize - |body|, 0);
        body := body + got[..Min(|got|, remaining)];
        all := all + got;
      }
    }
  }

  // ----------------------------------------------------- encodings and parses

  datatype EncodedChunk = EncodedChunk(line: Bytes, data: Bytes)

  datatype Encoding = Encoding(chunks: seq<EncodedChunk>, lastLine: Bytes, trailers: seq<Bytes>)

  predicate SizeLine(line: Bytes, size: nat) {
    LF !in line && |line| + 2 <= MAX_CHUNK_LINE_SIZE && ChunkSize(line) == Some(size)
  }

  function TrailerSize(trailers: seq<Bytes>): nat {
    if trailers == [] then 0 else |trailers[0]| + 2 + TrailerSize(trailers[1..])
  }

  predicate FieldLine(line: Bytes) {
    line != [] && LF !in line && COLON in line
  }

  predicate FieldLines(trailers: seq<Bytes>) {
    trailers == [] || (FieldLine(trailers[0]) && FieldLines(trailers[1..]))
  }

  /** A chunked body: size lines that state the chunk lengths, a zero line, and field lines. */
  ghost predicate ValidEncoding(e: Encoding) {
    && (forall i :: 0 <= i < |e.chunks| ==> e.chunks[i].data != [] && SizeLine(e.chunks[i].line, |e.chunks[i].data|))
    && SizeLine(e.lastLine, 0)
    && FieldLines(e.trailers)
    && TrailerSize(e.trailers) + 2 <= MAX_HEADER_SIZE
  }

  function RenderTrailers(trailers: seq<Bytes>): Bytes {
    if trailers == [] then [13, 10] else trailers[0] + [13, 10] + RenderTrailers(trailers[1..])
  }

  function Render(e: Encoding): Bytes
    decreases |e.chunks|
  {
    if e.chunks == [] then e.lastLine + [CR, LF] + RenderTrailers(e.trailers)
    else e.chunks[0].line + [CR, LF] + e.chunks[0].data + [CR, LF] + Render(e.(chunks := e.chunks[1..]))
  }

  function Body(e: Encoding): Bytes
    decreases |e.chunks|
  {
    if e.chunks == [] then [] else e.chunks[0].data + Body(e.(chunks := e.chunks[1..]))
  }

  lemma ParseLineOf(line: Bytes, after: Bytes, limit: nat)
    requires LF !in line && |line| + 2 <= limit
    ensures ParseLine(line + [CR, LF] + after, limit) == Some((line, after))
  {
    var input := line + [CR, LF] + after;
    assert forall k :: 0 <= k < |line| ==> input[k] == line[k];
    FindLfIs(input, |line| + 1);
    assert input[|line|] == CR && input[..|line|] == line && input[|line| + 2..] == after;
  }

  /** A parsed line is the text, CRLF and the rest. */
  lemma ParseLineInverse(input: Bytes, limit: nat)
    requires ParseLine(input, limit).Some?
    ensures var (line, rest) := ParseLine(input, limit).value;
            input == line + [CR, LF] + rest && LF !in line && |line| + 2 <= limit
  {
  }

  /** One field line at the front of a trailer section. */
  lemma TrailerStep(line: Bytes, rest: Bytes, used: nat)
    requires FieldLine(line) && used + |line| + 4 <= MAX_HEADER_SIZE
    ensures ParseTrailers(line + [CR, LF] + rest, used) == ParseTrailers(rest, used + |line| + 2)
  {
    ParseLineOf(line, rest, MAX_HEADER_SIZE - used);
  }

  /** A section with no field line: just the empty line. */
  lemma NoTrailers(input: Bytes, after: Bytes, used: nat)
    requires input == [CR, LF] + after && used + 2 <= MAX_HEADER_SIZE
    ensures ParseTrailers(input, used) == Some(after)
  {
    assert input == [] + [CR, LF] + after;
    ParseLineOf([], after, MAX_HEADER_SIZE - used);
  }

  /** A rendered section without its first line. */
  lemma RenderFront(trailers: seq<Bytes>, input: Bytes, after: Bytes) returns (rest: Bytes)
    requires trailers != [] && input == RenderTrailers(trailers) + after
    ensures rest == RenderTrailers(trailers[1..]) + after && input == trailers[0] + [CR, LF] + rest
  {
    rest := RenderTrailers(trailers[1..]) + after;
  }

  lemma {:induction false} ParseRendered(trailers: seq<Bytes>, input: Bytes, after: Bytes, used: nat)
    requires FieldLines(trailers) && used + TrailerSize(trailers) + 2 <= MAX_HEADER_SIZE
    requires input == RenderTrailers(trailers) + after
    ensures ParseTrailers(input, used) == Some(after)
    decreases |trailers|
  {
    if trailers == [] {
      NoTrailers(input, after, used);
    } else {
      var line := trailers[0];
      var rest := RenderFront(trailers, input, after);
      TrailerStep(line, rest, used);
      ParseRendered(trailers[1..], rest, after, used + |line| + 2);
    }
  }

  lemma LongLine(line: Bytes, after: Bytes, limit: nat)
    requires LF !in line && |line| + 2 > limit
    ensures ParseLine(line + [CR, LF] + after, limit) == None
  {
    var input := line + [CR, LF] + after;
    assert forall k :: 0 <= k < |line| ==> input[k] == line[k];
    FindLfIs(input, |line| + 1);
  }

  lemma TrailerWithin(line: Bytes, rest: Bytes, used: nat)
    requires line != [] && 10 !in line && 58 in line && used + 2 <= 65536
    ensures ParseTrailers(line + [CR, LF] + rest, used) ==
            if used + |line| + 2 <= 65536 then ParseTrailers(rest, used + |line| + 2) else None
  {
    if used + |line| + 2 > 65536 {
      LongLine(line, rest, 65536 - used);
    } else {
      ParseLineOf(line, rest, 65536 - used);
    }
  }

  lemma {:induction false} TrailersWithin(trailers: seq<Bytes>, input: Bytes, after: Bytes, used: nat)
    requires forall i :: 0 <= i < |trailers| ==> trailers[i] != [] && 10 !in trailers[i] && 58 in trailers[i]
    requires input == RenderTrailers(trailers) + after && used + 2 <= 65536
    ensures ParseTrailers(input, used) ==
            if used + |RenderTrailers(trailers)| <= 65536 then Some(after) else None
    decreases |trailers|
  {
    if trailers == [] {
      NoTrailers(input, after, used);
    } else {
      var line, more := trailers[0], trailers[1..];
      var rest := RenderFront(trailers, input, after);
      TrailerWithin(line, rest, used);
      if used + |line| + 4 <= 65536 {
        TrailersWithin(more, rest, after, used + |line| + 2);
      } else if used + |line| + 2 <= 65536 {
        NoRoomForTrailers(rest, used + |line| + 2);
      }
    }
  }

  lemma NoRoomForTrailers(input: Bytes, used: nat)
    requires used + 2 > 65536
    ensures ParseTrailers(input, used) == None
  {
  }

  /** Field lines ended by an empty line are skipped exactly when they are 64 KiB or less in all. */
  lemma TrailerLimit(trailers: seq<Bytes>, after: Bytes)
    requires forall i :: 0 <= i < |trailers| ==> trailers[i] != [] && 10 !in trailers[i] && 58 in trailers[i]
    ensures ParseTrailers(RenderTrailers(trailers) + after, 0) ==
            if |RenderTrailers(trailers)| <= 65536 then Some(after) else None
  {
    TrailersWithin(trailers, RenderTrailers(trailers) + after, after, 0);
  }

  lemma TrailersRoundTrip(trailers: seq<Bytes>, after: Bytes, used: nat)
    requires FieldLines(trailers) && used + TrailerSize(trailers) + 2 <= MAX_HEADER_SIZE
    ensures ParseTrailers(RenderTrailers(trailers) + after, used) == Some(after)
  {
    ParseRendered(trailers, RenderTrailers(trailers) + after, after, used);
  }

  /**
   Every valid encoding parses back to its body, however it was chunked, and the
   parse ends exactly after its trailers.
   */
  lemma {:induction false} EncodingRoundTrip(e: Encoding, after: Bytes)
    requires ValidEncoding(e)
    ensures ParseChunks(Render(e) + after) == Some((Body(e), after))
    decreases |e.chunks|
  {
    if e.chunks == [] {
      var rest := RenderTrailers(e.trailers) + after;
      assert Render(e) + after == e.lastLine + [CR, LF] + rest;
      ParseLineOf(e.lastLine, rest, MAX_CHUNK_LINE_SIZE);
      TrailersRoundTrip(e.trailers, after, 0);
    } else {
      var tail := e.(chunks := e.chunks[1..]);
      var c := e.chunks[0];
      var rest := Render(tail) + after;
      var data := c.data + [CR, LF] + rest;
      assert Render(e) + after == c.line + [CR, LF] + data;
      ParseLineOf(c.line, data, MAX_CHUNK_LINE_SIZE);
      EncodingRoundTrip(tail, after);
      DataRoundTrip(c.data, rest);
    }
  }

  lemma DataRoundTrip(data: Bytes, rest: Bytes)
    requires ParseChunks(rest).Some?
    ensures ParseData(data + [CR, LF] + rest, |data|) ==
              Some((data + ParseChunks(rest).value.0, ParseChunks(rest).value.1))
  {
    var input := data + [CR, LF] + rest;
    assert input[|data|..|data| + 2] == [CR, LF];
    assert input[|data| + 2..] == rest;
    assert input[..|data|] == data;
  }

  lemma PrependTrailer(line: Bytes, more: seq<Bytes>, rest: Bytes, after: Bytes)
    requires rest == RenderTrailers(more) + after && FieldLine(line) && FieldLines(more)
    ensures line + [CR, LF] + rest == RenderTrailers([line] + more) + after
    ensures TrailerSize([line] + more) == |line| + 2 + TrailerSize(more) && FieldLines([line] + more)
  {
    assert ([line] + more)[1..] == more;
  }

  /** What an accepted trailer section starts with. */
  lemma FirstTrailer(input: Bytes, used: nat) returns (line: Bytes, rest: Bytes)
    requires ParseTrailers(input, used).Some?
    ensures input == line + [CR, LF] + rest && used + |line| + 2 <= MAX_HEADER_SIZE
    ensures line == [] ==> ParseTrailers(input, used) == Some(rest)
    ensures line != [] ==> FieldLine(line) && ParseTrailers(input, used) == ParseTrailers(rest, used + |line| + 2)
  {
    ParseLineInverse(input, MAX_HEADER_SIZE - used);
    var parsed := ParseLine(input, MAX_HEADER_SIZE - used).value;
    line, rest := parsed.0, parsed.1;
  }

  lemma {:induction false} TrailersInverse(input: Bytes, used: nat) returns (trailers: seq<Bytes>)
    requires ParseTrailers(input, used).Some?
    ensures FieldLines(trailers)
    ensures used + TrailerSize(trailers) + 2 <= MAX_HEADER_SIZE
    ensures input == RenderTrailers(trailers) + ParseTrailers(input, used).value
    decreases |input|
  {
    var line, rest := FirstTrailer(input, used);
    if line == [] {
      trailers := [];
      assert input == [CR, LF] + rest;
    } else {
      var more := TrailersInverse(rest, used + |line| + 2);
      PrependTrailer(line, more, rest, ParseTrailers(rest, used + |line| + 2).value);
      trailers := [line] + more;
    }
  }

  lemma PrependBytes(line: Bytes, data: Bytes, rendered: Bytes, after: Bytes)
    ensures line + [CR, LF] + (data + [CR, LF] + (rendered + after)) ==
            line + [CR, LF] + data + [CR, LF] + rendered + after
  {
  }

  lemma PrependChunk(c: EncodedChunk, tail: Encoding, input: Bytes, after: Bytes)
    requires ValidEncoding(tail) && c.data != [] && SizeLine(c.line, |c.data|)
    requires input == c.line + [CR, LF] + (c.data + [CR, LF] + (Render(tail) + after))
    ensures var e := tail.(chunks := [c] + tail.chunks);
            ValidEncoding(e) && Body(e) == c.data + Body(tail) && input == Render(e) + after
  {
    var e := tail.(chunks := [c] + tail.chunks);
    assert e.chunks[1..] == tail.chunks && e.(chunks := e.chunks[1..]) == tail;
    PrependBytes(c.line, c.data, Render(tail), after);
  }

  /** Whatever the parser accepts is a valid encoding of the body it returns. */
  lemma {:induction false} ParseIsEncoding(input: Bytes) returns (e: Encoding)
    requires ParseChunks(input).Some?
    ensures ValidEncoding(e)
    ensures Body(e) == ParseChunks(input).value.0
    ensures input == Render(e) + ParseChunks(input).value.1
    decreases |input|
  {
    var after := ParseChunks(input).value.1;
    ParseLineInverse(input, MAX_CHUNK_LINE_SIZE);
    var (line, rest) := ParseLine(input, MAX_CHUNK_LINE_SIZE).value;
    var size := ChunkSize(line).value;
    if size == 0 {
      var trailers := TrailersInverse(rest, 0);
      e := Encoding([], line, trailers);
      assert input == line + [CR, LF] + (RenderTrailers(trailers) + after);
    } else {
      var data, more := rest[..size], rest[size + 2..];
      assert rest == data + [CR, LF] + more;
      var tail := ParseIsEncoding(more);
      var c := EncodedChunk(line, data);
      PrependChunk(c, tail, input, after);
      e := tail.(chunks := [c] + tail.chunks);
    }
  }

  // ------------------------------------------------------ size lines of the RFC

  lemma {:induction false} DigitsHaveNumber(digits: Bytes)
    requires forall i :: 0 <= i < |digits| ==> HexValue(digits[i]).Some?
    ensures HexNumber(digits).Some?
  {
    if digits != [] {
      DigitsHaveNumber(digits[..|digits| - 1]);
    }
  }

  lemma {:induction false} NumberHasDigits(digits: Bytes)
    requires HexNumber(digits).Some?
    ensures forall i :: 0 <= i < |digits| ==> HexValue(digits[i]).Some?
  {
    if digits != [] {
      NumberHasDigits(digits[..|digits| - 1]);
    }
  }

  lemma {:induction false} CutExtension(head: Bytes, ext: Bytes)
    requires SEMICOLON !in head && (ext == [] || ext[0] == SEMICOLON)
    ensures BeforeSemicolon(head + ext) == head
  {
    if head == [] {
      assert head + ext == ext;
    } else {
      assert (head + ext)[1..] == head[1..] + ext;
      CutExtension(head[1..], ext);
    }
  }

  lemma {:induction false} TrimBlanks(text: Bytes, blanks: Bytes)
    requires text != [] && !IsSpace(text[|text| - 1])
    requires forall i :: 0 <= i < |blanks| ==> IsSpace(blanks[i])
    ensures TrimEnd(text + blanks) == text
  {
    if blanks == [] {
      assert text + blanks == text;
    } else {
      var all := text + blanks;
      assert all[..|all| - 1] == text + blanks[..|blanks| - 1];
      TrimBlanks(text, blanks[..|blanks| - 1]);
    }
  }

  /**
   A size line in the sense of section 7.1 of RFC 9112, with leading zeros,
   digits of either case, blanks and any chunk extension, states its hex value.
   */
  lemma RfcSizeLine(digits: Bytes, blanks: Bytes, ext: Bytes)
    requires digits != [] && forall i :: 0 <= i < |digits| ==> HexValue(digits[i]).Some?
    requires forall i :: 0 <= i < |blanks| ==> IsSpace(blanks[i])
    requires ext == [] || ext[0] == SEMICOLON
    ensures HexNumber(digits).Some?
    ensures ChunkSize(digits + blanks + ext) == if HexNumber(digits).value <= USIZE_MAX then HexNumber(digits) else None
  {
    DigitsHaveNumber(digits);
    assert SEMICOLON !in digits + blanks;
    CutExtension(digits + blanks, ext);
    assert !IsSpace(digits[0]) && (digits + blanks)[0] == digits[0];
    assert TrimStart(digits + blanks) == digits + blanks;
    TrimBlanks(digits, blanks);
  }

  lemma {:induction false} SplitExtension(line: Bytes) returns (ext: Bytes)
    ensures line == BeforeSemicolon(line) + ext && (ext == [] || ext[0] == 59)
  {
    if line == [] || line[0] == SEMICOLON {
      ext := line;
    } else {
      ext := SplitExtension(line[1..]);
    }
  }

  lemma {:induction false} SplitLead(s: Bytes) returns (lead: Bytes)
    ensures s == lead + TrimStart(s) && forall i :: 0 <= i < |lead| ==> lead[i] == 32 || 9 <= lead[i] <= 13
  {
    lead := [];
    if s != [] && IsSpace(s[0]) {
      lead := SplitLead(s[1..]);
      lead := [s[0]] + lead;
    }
  }

  lemma {:induction false} SplitTrail(s: Bytes) returns (trail: Bytes)
    ensures s == TrimEnd(s) + trail && forall i :: 0 <= i < |trail| ==> trail[i] == 32 || 9 <= trail[i] <= 13
  {
    trail := [];
    if s != [] && IsSpace(s[|s| - 1]) {
      trail := SplitTrail(s[..|s| - 1]);
      trail := trail + [s[|s| - 1]];
    }
  }

  /** The text a size is parsed from, and the blanks and the extension around it. */
  lemma SplitSizeLine(line: Bytes) returns (lead: Bytes, text: Bytes, trail: Bytes, ext: Bytes)
    ensures line == lead + text + trail + ext && ChunkSize(line) == ParseHex(text)
    ensures forall i :: 0 <= i < |lead| ==> lead[i] == 32 || 9 <= lead[i] <= 13
    ensures forall i :: 0 <= i < |trail| ==> trail[i] == 32 || 9 <= trail[i] <= 13
    ensures ext == [] || ext[0] == 59
  {
    var head := BeforeSemicolon(line);
    ext := SplitExtension(line);
    lead := SplitLead(head);
    trail := SplitTrail(TrimStart(head));
    text := TrimEnd(TrimStart(head));
    assert line == lead + (text + trail) + ext == lead + text + trail + ext;
  }

  lemma SplitNumber(text: Bytes) returns (plus: Bytes, digits: Bytes)
    requires ParseHex(text).Some?
    ensures text == plus + digits && digits != [] && (plus == [] || plus == [43])
    ensures forall i :: 0 <= i < |digits| ==>
                          48 <= digits[i] <= 57 || 65 <= digits[i] <= 70 || 97 <= digits[i] <= 102
    ensures ParseHex(text) == HexNumber(digits) && HexNumber(digits).value <= 18446744073709551615
  {
    plus, digits := [], text;
    if text[0] == 43 {
      plus, digits := [43], text[1..];
    }
    NumberHasDigits(digits);
  }

  /** Nothing else is accepted: blanks, an optional plus sign, digits in range, blanks, an extension. */
  lemma AcceptedSizeLine(line: Bytes) returns (lead: Bytes, plus: Bytes, digits: Bytes, trail: Bytes, ext: Bytes)
    requires ChunkSize(line).Some?
    ensures line == lead + (plus + digits) + trail + ext && digits != []
    ensures forall i :: 0 <= i < |lead| ==> lead[i] == 32 || 9 <= lead[i] <= 13
    ensures plus == [] || plus == [43]
    ensures forall i :: 0 <= i < |digits| ==>
                          48 <= digits[i] <= 57 || 65 <= digits[i] <= 70 || 97 <= digits[i] <= 102
    ensures forall i :: 0 <= i < |trail| ==> trail[i] == 32 || 9 <= trail[i] <= 13
    ensures ext == [] || ext[0] == 59
    ensures ChunkSize(line) == HexNumber(digits) && HexNumber(digits).value <= 18446744073709551615
  {
    var text;
    lead, text, trail, ext := SplitSizeLine(line);
    plus, digits := SplitNumber(text);
  }

  lemma {:induction false} TrimLead(lead: Bytes, text: Bytes)
    requires text != [] && !IsSpace(text[0])
    requires forall i :: 0 <= i < |lead| ==> IsSpace(lead[i])
    ensures TrimStart(lead + text) == text
  {
    if lead == [] {
      assert lead + text == text;
    } else {
      assert (lead + text)[1..] == lead[1..] + text;
      TrimLead(lead[1..], text);
    }
  }

  lemma TrimmedText(lead: Bytes, text: Bytes, trail: Bytes, ext: Bytes)
    requires text != [] && forall i :: 0 <= i < |text| ==> !IsSpace(text[i]) && text[i] != SEMICOLON
    requires forall i :: 0 <= i < |lead| ==> IsSpace(lead[i])
    requires forall i :: 0 <= i < |trail| ==> IsSpace(trail[i])
    requires ext == [] || ext[0] == SEMICOLON
    ensures TrimEnd(TrimStart(BeforeSemicolon(lead + text + trail + ext))) == text
  {
    CutExtension(lead + text + trail, ext);
    Assoc(lead, text, trail);
    TrimLead(lead, text + trail);
    TrimBlanks(text, trail);
  }

  lemma SignedNumber(plus: Bytes, digits: Bytes)
    requires (plus == [] || plus == [43]) && digits != []
    requires forall i :: 0 <= i < |digits| ==> HexValue(digits[i]).Some?
    ensures HexNumber(digits).Some?
    ensures ParseHex(plus + digits) == if HexNumber(digits).value <= USIZE_MAX then HexNumber(digits) else None
  {
    DigitsHaveNumber(digits);
    if plus == [] {
      assert plus + digits == digits && digits[0] != 43;
    } else {
      assert (plus + digits)[1..] == digits;
    }
  }

  /** And every such line is accepted, unless its number does not fit in 64 bits. */
  lemma SizeLineAccepted(lead: Bytes, plus: Bytes, digits: Bytes, trail: Bytes, ext: Bytes)
    requires forall i :: 0 <= i < |lead| ==> lead[i] == 32 || 9 <= lead[i] <= 13
    requires (plus == [] || plus == [43]) && digits != []
    requires forall i :: 0 <= i < |digits| ==>
                           48 <= digits[i] <= 57 || 65 <= digits[i] <= 70 || 97 <= digits[i] <= 102
    requires forall i :: 0 <= i < |trail| ==> trail[i] == 32 || 9 <= trail[i] <= 13
    requires ext == [] || ext[0] == 59
    ensures HexNumber(digits).Some?
    ensures ChunkSize(lead + (plus + digits) + trail + ext) ==
            if HexNumber(digits).value <= 18446744073709551615 then HexNumber(digits) else None
  {
    SignedNumber(plus, digits);
    var text := plus + digits;
    assert forall i :: 0 <= i < |text| ==> text[i] == 43 || text[i] in digits;
    TrimmedText(lead, text, trail, ext);
  }

  // -------------------------------------------- size lines written with a table

  // Sixteen symbols, one for each digit.
  type DigitTable = t: string | |t| == 16 && forall c :: c in t ==> c as int < 256 witness "0123456789abcdef"

  predicate HexTable(table: DigitTable) {
    table == "0123456789abcdef" || table == "0123456789ABCDEF"
  }

  /** The digits of n to base sixteen, most significant first, in the symbols of table. */
  function Hex(n: nat, table: DigitTable): Bytes {
    var low: Byte := table[n % 16] as int;
    (if n < 16 then [] else Hex(n / 16, table)) + [low]
  }

  lemma TableDigit(table: DigitTable, d: nat)
    requires HexTable(table) && d < 16
    ensures HexValue(table[d] as int) == Some(d)
  {
    LowerTable(d);
    UpperTable(d);
  }

  lemma AppendDigit(high: Bytes, c: Byte, n: nat, d: nat)
    requires HexNumber(high) == Some(n) && HexValue(c) == Some(d)
    ensures HexNumber(high + [c]) == Some(16 * n + d)
  {
    assert (high + [c])[..|high|] == high;
  }

  lemma HexParts(n: nat, table: DigitTable) returns (high: nat, digit: nat, low: Byte)
    ensures digit < 16 && n == 16 * high + digit && low == table[digit] as int
    ensures Hex(n, table) == (if high == 0 then [] else Hex(high, table)) + [low]
  {
    high, digit := n / 16, n % 16;
    low := table[digit] as int;
  }

  lemma {:induction false} HexNumberOf(n: nat, table: DigitTable)
    requires forall d :: 0 <= d < 16 ==> HexValue(table[d] as int) == Some(d)
    ensures HexNumber(Hex(n, table)) == Some(n)
  {
    var high, digit, low := HexParts(n, table);
    if high == 0 {
      AppendDigit([], low, 0, digit);
    } else {
      HexNumberOf(high, table);
      AppendDigit(Hex(high, table), low, high, digit);
    }
  }

  lemma HexNumberOfHex(n: nat, table: DigitTable)
    requires HexTable(table)
    ensures HexNumber(Hex(n, table)) == Some(n)
  {
    forall d | 0 <= d < 16
      ensures HexValue(table[d] as int) == Some(d)
    {
      TableDigit(table, d);
    }
    HexNumberOf(n, table);
  }

  lemma {:induction false} LeadingZeros(zeros: Bytes, digits: Bytes)
    requires forall i :: 0 <= i < |zeros| ==> zeros[i] == 48
    ensures HexNumber(zeros + digits) == HexNumber(digits)
  {
    var all := zeros + digits;
    if digits != [] {
      assert all[..|all| - 1] == zeros + digits[..|digits| - 1];
      LeadingZeros(zeros, digits[..|digits| - 1]);
    } else if zeros != [] {
      assert all[..|all| - 1] == zeros[..|zeros| - 1] + [];
      LeadingZeros(zeros[..|zeros| - 1], []);
    }
  }

  /** A size written in hexadecimal of either case, with leading zeros, blanks and an extension, is read back. */
  lemma ChunkSizeOfHex(n: nat, table: DigitTable, zeros: Bytes, blanks: Bytes, ext: Bytes)
    requires table == "0123456789abcdef" || table == "0123456789ABCDEF"
    requires forall i :: 0 <= i < |zeros| ==> zeros[i] == 48
    requires forall i :: 0 <= i < |blanks| ==> blanks[i] == 32 || 9 <= blanks[i] <= 13
    requires ext == [] || ext[0] == 59
    ensures ChunkSize(zeros + Hex(n, table) + blanks + ext) == if n <= 18446744073709551615 then Some(n) else None
  {
    HexNumberOfHex(n, table);
    LeadingZeros(zeros, Hex(n, table));
    NumberHasDigits(zeros + Hex(n, table));
    RfcSizeLine(zeros + Hex(n, table), blanks, ext);
  }

  function Sixteens(k: nat): nat {
    if k == 0 then 1 else 16 * Sixteens(k - 1)
  }

  lemma {:induction false} HexWidth(n: nat, k: nat, table: DigitTable)
    requires HexTable(table) && k > 0 && n < Sixteens(k)
    ensures |Hex(n, table)| <= k
  {
    if n >= 16 {
      assert k > 1 by { assert Sixteens(1) == 16 * Sixteens(0); }
      HexWidth(n / 16, k - 1, table);
    }
  }

  lemma HexFitsLine(n: nat, table: DigitTable)
    requires HexTable(table) && n <= 18446744073709551615
    ensures |Hex(n, table)| <= 16
    ensures LF !in Hex(n, table)
  {
    assert Sixteens(4) == 65536;
    assert Sixteens(8) == 65536 * 65536;
    assert Sixteens(12) == 65536 * 65536 * 65536;
    assert Sixteens(16) == 18446744073709551616;
    HexWidth(n, 16, table);
    HexNumberOfHex(n, table);
    NumberHasDigits(Hex(n, table));
  }

  /** A size line of at most 8190 bytes is followed by that much data; a longer one is refused. */
  lemma SizeLineLimit(line: Bytes, n: nat, rest: Bytes)
    requires 10 !in line && ChunkSize(line) == Some(n)
    ensures |line| > 8190 ==> ParseChunks(line + [13, 10] + rest) == None
    ensures |line| <= 8190 && n > 0 ==> ParseChunks(line + [13, 10] + rest) == ParseData(rest, n)
  {
    var input := line + [13, 10] + rest;
    if |line| > 8190 {
      assert forall k :: 0 <= k < |line| ==> input[k] == line[k];
      FindLfIs(input, |line| + 1);
    } else {
      ParseLineOf(line, rest, MAX_CHUNK_LINE_SIZE);
    }
  }

  /** The bytes of a chunked body without extensions and trailers, one chunk for each piece. */
  function Wire(pieces: seq<Bytes>, table: DigitTable): Bytes
  {
    if pieces == [] then [48, 13, 10, 13, 10]
    else Hex(|pieces[0]|, table) + [13, 10] + pieces[0] + [13, 10] + Wire(pieces[1..], table)
  }

  function Joined(pieces: seq<Bytes>): Bytes {
    if pieces == [] then [] else pieces[0] + Joined(pieces[1..])
  }

  lemma LastWire(after: Bytes)
    ensures ParseChunks([48, 13, 10, 13, 10] + after) == Some(([], after))
  {
    var rest := [13, 10] + after;
    assert [48, 13, 10, 13, 10] + after == [48] + [CR, LF] + rest;
    ParseLineOf([48], rest, MAX_CHUNK_LINE_SIZE);
    RfcSizeLine([48], [], []);
    assert [48] + [] + [] == [48];
    assert HexNumber([48]) == Some(0) by { assert [48][..0] == []; }
    NoTrailers(rest, after, 0);
  }

  lemma ChunkParses(line: Bytes, piece: Bytes, rest: Bytes)
    requires LF !in line && |line| <= 8190 && ChunkSize(line) == Some(|piece|)
    requires piece != [] && ParseChunks(rest).Some?
    ensures ParseChunks(line + [CR, LF] + (piece + [CR, LF] + rest)) ==
              Some((piece + ParseChunks(rest).value.0, ParseChunks(rest).value.1))
  {
    SizeLineLimit(line, |piece|, piece + [CR, LF] + rest);
    DataRoundTrip(piece, rest);
  }

  lemma HexLine(n: nat, table: DigitTable)
    requires HexTable(table) && n <= 18446744073709551615
    ensures LF !in Hex(n, table) && |Hex(n, table)| <= 8190 && ChunkSize(Hex(n, table)) == Some(n)
  {
    HexFitsLine(n, table);
    ChunkSizeOfHex(n, table, [], [], []);
    NothingAround(Hex(n, table));
  }

  lemma NothingAround(line: Bytes)
    ensures [] + line + [] + [] == line
  {
  }

  lemma {:induction false} WireParses(pieces: seq<Bytes>, table: DigitTable, after: Bytes)
    requires HexTable(table)
    requires forall i :: 0 <= i < |pieces| ==> pieces[i] != [] && |pieces[i]| <= 18446744073709551615
    ensures ParseChunks(Wire(pieces, table) + after) == Some((Joined(pieces), after))
    decreases |pieces|
  {
    if pieces == [] {
      LastWire(after);
    } else {
      var piece, tail := pieces[0], Wire(pieces[1..], table);
      WireParses(pieces[1..], table, after);
      HexLine(|piece|, table);
      ChunkParses(Hex(|piece|, table), piece, tail + after);
      PrependBytes(Hex(|piece|, table), piece, tail, after);
    }
  }

  lemma {:induction false} PieceWithin(pieces: seq<Bytes>, i: nat)
    requires i < |pieces|
    ensures |pieces[i]| <= |Joined(pieces)|
  {
    if i > 0 {
      PieceWithin(pieces[1..], i - 1);
    }
  }

  /**
   A body sent in chunks whose sizes are written in hexadecimal of either case is
   read back whole, over any fragmentation.
   */
  method ReadWire(pieces: seq<Bytes>, table: DigitTable, after: Bytes, maxBodySize: nat)
    returns (r: Result<(Bytes, nat), string>, unread: Bytes)
    requires table == "0123456789abcdef" || table == "0123456789ABCDEF"
    requires (forall i :: 0 <= i < |pieces| ==> pieces[i] != []) && |Joined(pieces)| <= 18446744073709551615
    ensures var body := Joined(pieces);
            r == Ok((if maxBodySize < |body| then body[..maxBodySize] else body, |body|))
    ensures unread == after
  {
    forall i | 0 <= i < |pieces| {
      PieceWithin(pieces, i);
    }
    WireParses(pieces, table, after);
    assert Joined(pieces)[..|Joined(pieces)|] == Joined(pieces);
    var reader := new FragmentedReader(Wire(pieces, table) + after);
    var body := new BodyReader(reader, Chunked(0, false));
    r := body.CollectBody(maxBodySize);
    unread := reader.rest;
  }

  /**
   Reading a valid chunked encoding over any fragmentation gives the first
   maxBodySize bytes of the body and its full length, and leaves the input just
   after the final trailer line.
   */
  method ReadEncodedBody(e: Encoding, after: Bytes, maxBodySize: nat)
    returns (r: Result<(Bytes, nat), string>, unread: Bytes)
    requires ValidEncoding(e) && |Body(e)| <= USIZE_MAX
    ensures r == Ok((Body(e)[..Min(maxBodySize, |Body(e)|)], |Body(e)|))
    ensures unread == after
  {
    EncodingRoundTrip(e, after);
    var reader := new FragmentedReader(Render(e) + after);
    var body := new BodyReader(reader, Chunked(0, false));
    r := body.CollectBody(maxBodySize);
    unread := reader.rest;
  }
}

/**
 Base64 (section 4 of RFC 4648), over bytes, and its chunked form in
 lib/report/jsonl_response_store.py.
 */
module Base64 {
  import opened Wrappers
  import opened ByteStrings

  const PAD: Byte := 61

  /** A multiple of three, so that separately encoded chunks can be concatenated. */
  const CHUNK_SIZE: nat := 57 * 1024

  /** The alphabet: A-Z, a-z, 0-9, + and /. */
  function Digit(v: nat): (c: Byte)
    requires v < 64
    ensures c != PAD && Value(c) == Some(v)
  {
    if v < 26 then 65 + v else if v < 52 then 71 + v else if v < 62 then v - 4 else if v == 62 then 43 else 47
  }

  function Value(c: Byte): (v: Option<nat>)
    ensures v.Some? ==> v.value < 64
  {
    if 65 <= c <= 90 then Some(c - 65)
    else if 97 <= c <= 122 then Some(c - 71)
    else if 48 <= c <= 57 then Some(c + 4)
    else if c == 43 then Some(62)
    else if c == 47 then Some(63)
    else None
  }

  /** Four digits for three bytes. */
  function EncodeGroup(a: nat, b: nat, c: nat): (g: Bytes)
    requires a < 256 && b < 256 && c < 256
    ensures |g| == 4
  {
    [Digit(a / 4), Digit(a % 4 * 16 + b / 16), Digit(b % 16 * 4 + c / 64), Digit(c % 64)]
  }

  function Encode(s: Bytes): Bytes {
    if s == [] then []
    else if |s| == 1 then EncodeGroup(s[0], 0, 0)[..2] + [PAD, PAD]
    else if |s| == 2 then EncodeGroup(s[0], s[1], 0)[..3] + [PAD]
    else EncodeGroup(s[0], s[1], s[2]) + Encode(s[3..])
  }

  /** The bytes of four digits, the last ones possibly padding. */
  function DecodeGroup(g: Bytes): Option<Bytes>
    requires |g| == 4
  {
    match (Value(g[0]), Value(g[1]))
    case (Some(p), Some(q)) =>
      var first := [p * 4 + q / 16];
      if g[2] == PAD && g[3] == PAD then if q % 16 == 0 then Some(first) else None else
      (match Value(g[2])
       case None => None
       case Some(r) =>
         var second := first + [q % 16 * 16 + r / 4];
         if g[3] == PAD then if r % 4 == 0 then Some(second) else None else
         match Value(g[3])
         case None => None
         case Some(t) => Some(second + [r % 4 * 64 + t]))
    case _ => None
  }

  /** Padding is accepted only at the very end, and only with zero spare bits. */
  function Decode(e: Bytes): Option<Bytes> {
    if e == [] then Some([]) else if |e| < 4 then None else
    match (DecodeGroup(e[..4]), Decode(e[4..]))
    case (Some(g), Some(rest)) => if |g| < 3 && |e| > 4 then None else Some(g + rest)
    case _ => None
  }

  /** Cutting three bytes into four six-bit values loses nothing. */
  lemma Regroup(a: nat, b: nat, c: nat)
    requires a < 256 && b < 256 && c < 256
    ensures var (p, q, r, t) := (a / 4, a % 4 * 16 + b / 16, b % 16 * 4 + c / 64, c % 64);
            p * 4 + q / 16 == a && q % 16 * 16 + r / 4 == b && r % 4 * 64 + t == c
  {
    var q, r := a % 4 * 16 + b / 16, b % 16 * 4 + c / 64;
    assert q / 16 == a % 4 && q % 16 == b / 16 && r / 4 == b % 16 && r % 4 == c / 64;
  }

  lemma FullGroup(a: nat, b: nat, c: nat)
    requires a < 256 && b < 256 && c < 256
    ensures DecodeGroup(EncodeGroup(a, b, c)) == Some([a, b, c])
  {
    var p, q, r, t := a / 4, a % 4 * 16 + b / 16, b % 16 * 4 + c / 64, c % 64;
    Regroup(a, b, c);
    assert DecodeGroup(EncodeGroup(a, b, c)) ==
           Some([p * 4 + q / 16] + [q % 16 * 16 + r / 4] + [r % 4 * 64 + t]);
    assert [a] + [b] + [c] == [a, b, c];
  }

  lemma GroupOfTwo(a: nat, b: nat)
    requires a < 256 && b < 256
    ensures DecodeGroup(EncodeGroup(a, b, 0)[..3] + [PAD]) == Some([a, b])
  {
    var p, q, r := a / 4, a % 4 * 16 + b / 16, b % 16 * 4;
    Regroup(a, b, 0);
    assert r % 4 == 0;
    var g := EncodeGroup(a, b, 0)[..3] + [PAD];
    assert g == [Digit(p), Digit(q), Digit(r), PAD];
    assert DecodeGroup(g) == Some([p * 4 + q / 16] + [q % 16 * 16 + r / 4]);
    assert [a] + [b] == [a, b];
  }

  lemma GroupOfOne(a: nat)
    requires a < 256
    ensures DecodeGroup(EncodeGroup(a, 0, 0)[..2] + [PAD, PAD]) == Some([a])
  {
    var p, q := a / 4, a % 4 * 16;
    assert q / 16 == a % 4 && q % 16 == 0;
    assert EncodeGroup(a, 0, 0)[..2] + [PAD, PAD] == [Digit(p), Digit(q), PAD, PAD];
  }

  lemma GroupThen(g: Bytes, bytes: Bytes, rest: Bytes, more: Bytes)
    requires |g| == 4 && |bytes| == 3 && DecodeGroup(g) == Some(bytes) && Decode(rest) == Some(more)
    ensures Decode(g + rest) == Some(bytes + more)
  {
    assert (g + rest)[..4] == g && (g + rest)[4..] == rest;
  }

  lemma FullGroupThen(s: Bytes)
    requires |s| > 2 && Decode(Encode(s[3..])) == Some(s[3..])
    ensures Decode(EncodeGroup(s[0], s[1], s[2]) + Encode(s[3..])) == Some(s)
  {
    FullGroup(s[0], s[1], s[2]);
    GroupThen(EncodeGroup(s[0], s[1], s[2]), [s[0], s[1], s[2]], Encode(s[3..]), s[3..]);
    assert s == [s[0], s[1], s[2]] + s[3..];
  }

  /** The alphabet: capital letters, small letters, figures, plus and slash, in this order. */
  lemma Alphabet(v: nat, c: Byte)
    requires v < 64
    ensures v < 26 ==> (Value(c) == Some(v) <==> c == 'A' as int + v)
    ensures 26 <= v < 52 ==> (Value(c) == Some(v) <==> c == 'a' as int + (v - 26))
    ensures 52 <= v < 62 ==> (Value(c) == Some(v) <==> c == '0' as int + (v - 52))
    ensures v == 62 ==> (Value(c) == Some(v) <==> c == '+' as int)
    ensures v == 63 ==> (Value(c) == Some(v) <==> c == '/' as int)
    ensures Value(c) == Some(v) <==> c == Digit(v)
  {
  }

  lemma SixBits(a: nat, b: nat, c: nat) returns (p: nat, q: nat, r: nat, t: nat)
    requires a < 256 && b < 256 && c < 256
    ensures p < 64 && q < 64 && r < 64 && t < 64 && EncodeGroup(a, b, c) == [Digit(p), Digit(q), Digit(r), Digit(t)]
    ensures 65536 * a + 256 * b + c == 262144 * p + 4096 * q + 64 * r + t
  {
    p, q, r, t := a / 4, a % 4 * 16 + b / 16, b % 16 * 4 + c / 64, c % 64;
  }

  lemma FourDigits(n: nat, p: nat, q: nat, r: nat, t: nat)
    requires p < 64 && q < 64 && r < 64 && t < 64 && n == 262144 * p + 4096 * q + 64 * r + t
    ensures n / 262144 == p && n / 4096 % 64 == q && n / 64 % 64 == r && n % 64 == t
  {
    assert n / 64 == 4096 * p + 64 * q + r;
    assert n / 4096 == 64 * p + q;
  }

  /** Three bytes are one number of 24 bits, written as four digits to base 64, most significant first. */
  lemma GroupDigits(a: nat, b: nat, c: nat, n: nat)
    requires a < 256 && b < 256 && c < 256 && n == 65536 * a + 256 * b + c
    ensures n / 262144 < 64
    ensures EncodeGroup(a, b, c) == [Digit(n / 262144), Digit(n / 4096 % 64), Digit(n / 64 % 64), Digit(n % 64)]
  {
    var p, q, r, t := SixBits(a, b, c);
    FourDigits(n, p, q, r, t);
  }

  /** The encoding of a whole group, and of one or two bytes left at the end, with their padding. */
  lemma EncodeMeans(a: Byte, b: Byte, c: Byte, rest: Bytes)
    ensures Encode([]) == []
    ensures Encode([a]) == EncodeGroup(a, 0, 0)[..2] + [61, 61]
    ensures Encode([a, b]) == EncodeGroup(a, b, 0)[..3] + [61]
    ensures Encode([a, b, c] + rest) == EncodeGroup(a, b, c) + Encode(rest)
  {
    assert ([a, b, c] + rest)[3..] == rest;
  }

  /** Decoding gives back every body. */
  lemma {:induction false} RoundTrip(s: Bytes)
    ensures Decode(Encode(s)) == Some(s)
  {
    if |s| == 1 {
      GroupOfOne(s[0]);
      assert s == [s[0]];
      LastGroup(Encode(s));
    } else if |s| == 2 {
      GroupOfTwo(s[0], s[1]);
      assert s == [s[0], s[1]];
      LastGroup(Encode(s));
    } else if |s| > 2 {
      RoundTrip(s[3..]);
      FullGroupThen(s);
    }
  }

  lemma LastGroup(e: Bytes)
    requires |e| == 4
    ensures Decode(e) == DecodeGroup(e)
  {
    assert e[..4] == e && e[4..] == [];
    if DecodeGroup(e).Some? {
      assert DecodeGroup(e).value + [] == DecodeGroup(e).value;
    }
  }

  /** Whole groups encode independently of what follows. */
  lemma {:induction false} EncodeConcat(a: Bytes, b: Bytes)
    requires |a| % 3 == 0
    ensures Encode(a + b) == Encode(a) + Encode(b)
  {
    if a == [] {
      assert a + b == b;
    } else {
      assert |a| >= 3 && (a + b)[3..] == a[3..] + b;
      EncodeConcat(a[3..], b);
      assert (a + b)[0] == a[0] && (a + b)[1] == a[1] && (a + b)[2] == a[2];
    }
  }

  lemma {:induction false} EncodeHasOnlyDigits(s: Bytes)
    ensures forall i :: 0 <= i < |Encode(s)| ==> Encode(s)[i] == PAD || Value(Encode(s)[i]).Some?
  {
    if |s| > 2 {
      EncodeHasOnlyDigits(s[3..]);
    }
  }

  lemma NextOffset(offset: nat)
    requires offset % 3 == 0
    ensures (offset + CHUNK_SIZE) % 3 == 0
  {
  }

  /** The next chunk of a body, encoded on its own, extends the encoding of what came before. */
  lemma ChunkExtends(body: Bytes, offset: nat)
    requires offset < |body| && offset % 3 == 0
    ensures var end := Min(offset + CHUNK_SIZE, |body|);
            Encode(body[..offset]) + Encode(body[offset..end]) == Encode(body[..end])
  {
    var end := Min(offset + CHUNK_SIZE, |body|);
    assert body[..offset] + body[offset..end] == body[..end];
    EncodeConcat(body[..offset], body[offset..end]);
  }

  lemma EncodePrefix(body: Bytes, n: nat)
    requires n <= |body| && (n == |body| || n % 3 == 0)
    ensures Encode(body[..n]) <= Encode(body)
  {
    assert body[..n] + body[n..] == body;
    if n == |body| {
      assert body[..n] == body;
    } else {
      EncodeConcat(body[..n], body[n..]);
    }
  }

  /** The first encoded chunks are the start of the whole encoding. */
  lemma EncodingIsPrefix(body: Bytes, offset: nat, end: nat)
    requires offset < |body| && offset % 3 == 0 && end == Min(offset + CHUNK_SIZE, |body|)
    ensures Encode(body[..offset]) + Encode(body[offset..end]) <= Encode(body)
  {
    ChunkExtends(body, offset);
    NextOffset(offset);
    EncodePrefix(body, end);
  }
}

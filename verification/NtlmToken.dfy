/**
 The NTLM authenticate (Type 3) token of native/src/ntlm.rs: the version field is
 kept or removed, the message integrity code is inserted, and the six payload
 offsets (section 2.2.1.3 of MS-NLMP) are rewritten to match.

 The HMAC is a parameter: any function from a key and a message to 16 bytes.
 */
module NtlmToken {
  import opened Wrappers
  import opened ByteStrings

  const MIC_LENGTH: nat := 16
  const VERSION_OFFSET: nat := 64
  const VERSION_LENGTH: nat := 8
  const SECURITY_BUFFERS: seq<nat> := [12, 20, 28, 36, 44, 52]
  const U32_LIMIT: nat := 0x1_0000_0000

  type Token = Bytes

  type Digest = d: Bytes | |d| == MIC_LENGTH witness [0, 0, 0, 0, 0, 0, 0, 0, 0, 0, 0, 0, 0, 0, 0, 0]

  const ZEROS: Digest := [0, 0, 0, 0, 0, 0, 0, 0, 0, 0, 0, 0, 0, 0, 0, 0]

  // --------------------------------------------------------------- token fields

  function BufferAt(k: nat): (position: nat)
    requires k < 6
    ensures position == 12 + 8 * k
  {
    SECURITY_BUFFERS[k]
  }

  function FromLittleEndian(t: Token, p: nat): (n: nat)
    requires p + 4 <= |t|
    ensures n < U32_LIMIT
  {
    var b0: nat, b1: nat, b2: nat, b3: nat := t[p], t[p + 1], t[p + 2], t[p + 3];
    b0 + 0x100 * b1 + 0x1_0000 * b2 + 0x100_0000 * b3
  }

  function LittleEndian(n: nat): (bytes: Bytes)
    requires n < U32_LIMIT
    ensures |bytes| == 4
  {
    [n % 0x100, n / 0x100 % 0x100, n / 0x1_0000 % 0x100, n / 0x100_0000]
  }

  lemma LittleEndianRoundTrip(n: nat)
    requires n < U32_LIMIT
    ensures FromLittleEndian(LittleEndian(n), 0) == n
  {
    assert n / 0x1_0000 == n / 0x100 / 0x100;
    assert n / 0x100_0000 == n / 0x1_0000 / 0x100;
  }

  /** The least significant byte comes first. */
  lemma LittleEndianBytes(b0: Byte, b1: Byte, b2: Byte, b3: Byte, n: nat)
    requires n == 16777216 * (b3 as nat) + 65536 * (b2 as nat) + 256 * (b1 as nat) + b0 as nat
    ensures n < 4294967296 && LittleEndian(n) == [b0, b1, b2, b3] && FromLittleEndian([b0, b1, b2, b3], 0) == n
  {
    assert n / 256 == 65536 * (b3 as nat) + 256 * (b2 as nat) + b1 as nat;
    assert n / 65536 == 256 * (b3 as nat) + b2 as nat;
    assert n / 16777216 == b3 as nat;
  }

  /** Where payload k starts. */
  function Offset(t: Token, k: nat): nat
    requires k < 6 && |t| >= 60
  {
    FromLittleEndian(t, BufferAt(k) + 4)
  }

  /** How long payload k is: the first 16-bit length of its security buffer. */
  function Length(t: Token, k: nat): nat
    requires k < 6 && |t| >= 60
  {
    var low: nat, high: nat := t[BufferAt(k)], t[BufferAt(k) + 1];
    low + 0x100 * high
  }

  /** A payload as the receiver reads it; None when it does not fit in the token. */
  function Payload(t: Token, k: nat): Option<Bytes>
    requires k < 6 && |t| >= 60
  {
    var offset, length := Offset(t, k), Length(t, k);
    if offset + length <= |t| then Some(t[offset..offset + length]) else None
  }

  predicate OffsetByte(i: nat) {
    16 <= i < 60 && i % 8 < 4
  }

  function WriteOffset(t: Token, k: nat, n: nat): (u: Token)
    requires k < 6 && |t| >= BufferAt(k) + 8 && n < U32_LIMIT
    ensures |u| == |t|
  {
    var p := BufferAt(k) + 4;
    t[..p] + LittleEndian(n) + t[p + 4..]
  }

  lemma WrittenBytes(t: Token, k: nat, n: nat)
    requires k < 6 && |t| >= 60 && n < U32_LIMIT
    ensures var u, p := WriteOffset(t, k, n), BufferAt(k) + 4;
            && [u[p], u[p + 1], u[p + 2], u[p + 3]] == LittleEndian(n)
            && forall i: nat :: i < |t| && !(p <= i < p + 4) ==> u[i] == t[i]
  {
  }

  lemma WriteOffsetIs(t: Token, k: nat, n: nat)
    requires k < 6 && |t| >= 60 && n < U32_LIMIT
    ensures Offset(WriteOffset(t, k, n), k) == n
    ensures forall j: nat :: j < 6 && j != k ==> Offset(WriteOffset(t, k, n), j) == Offset(t, j)
    ensures forall i: nat :: i < |t| && !OffsetByte(i) ==> WriteOffset(t, k, n)[i] == t[i]
  {
    LittleEndianRoundTrip(n);
    WrittenBytes(t, k, n);
    var u, p := WriteOffset(t, k, n), BufferAt(k) + 4;
    assert FromLittleEndian(u, p) == FromLittleEndian([u[p], u[p + 1], u[p + 2], u[p + 3]], 0);
  }

  /** u is t with its first k offsets moved by delta, and nothing else changed. */
  ghost predicate Shifted(t: Token, u: Token, delta: int, k: nat)
    requires |t| >= 60 && k <= 6
  {
    && |u| == |t|
    && (forall j: nat :: j < 6 ==> Offset(u, j) == Offset(t, j) + if j < k then delta else 0)
    && (forall i: nat :: i < |t| && !OffsetByte(i) ==> u[i] == t[i])
  }

  predicate OffsetsFit(t: Token, delta: int)
    requires |t| >= 60
  {
    forall j: nat :: j < 6 ==> 0 <= Offset(t, j) + delta < U32_LIMIT
  }

  function MicOffset(hasVersion: bool): nat {
    VERSION_OFFSET + if hasVersion then VERSION_LENGTH else 0
  }

  /** How far every payload moves. */
  function Growth(hasVersion: bool): nat {
    MIC_LENGTH - if hasVersion then 0 else VERSION_LENGTH
  }

  /** The token with a zeroed integrity code: what the code is computed over. */
  function Unsigned(out: Token, at: nat): Token
    requires at + MIC_LENGTH <= |out|
  {
    out[..at] + ZEROS + out[at + MIC_LENGTH..]
  }

  /** out has t's header with moved offsets, room for the code, and t's payloads. */
  ghost predicate Rewritten(t: Token, out: Token, hasVersion: bool)
    requires |t| >= 72
  {
    var at := MicOffset(hasVersion);
    && |out| == |t| + Growth(hasVersion)
    && (forall j: nat :: j < 6 ==> Offset(out, j) == Offset(t, j) + Growth(hasVersion))
    && (forall i: nat :: i < at && !OffsetByte(i) ==> out[i] == t[i])
    && out[at + MIC_LENGTH..] == t[72..]
  }

  /** The offsets that the 32-bit arithmetic, in one step or in two, can move. */
  predicate OffsetsMovable(t: Token, hasVersion: bool)
    requires |t| >= 60
  {
    if hasVersion then OffsetsFit(t, MIC_LENGTH)
    else OffsetsFit(t, -(VERSION_LENGTH as int)) && OffsetsFit(t, Growth(false))
  }

  lemma OffsetReads(t: Token, u: Token)
    requires |t| >= 60 && |u| >= 60 && t[..60] == u[..60]
    ensures forall j: nat :: j < 6 ==> Offset(t, j) == Offset(u, j)
    ensures forall i: nat :: i < 60 ==> t[i] == u[i]
  {
    forall i: nat | i < 60
      ensures t[i] == u[i]
    {
      assert t[i] == t[..60][i] == u[..60][i];
    }
  }

  // -------------------------------------------------------------- the operations

  class TokenBuffer {
    var bytes: Token

    constructor (token: Token)
      ensures bytes == token
    {
      bytes := token;
    }

    method Drain(from: nat, to: nat)
      requires from <= to <= |bytes|
      modifies this
      ensures bytes == old(bytes[..from]) + old(bytes[to..])
    {
      bytes := bytes[..from] + bytes[to..];
    }

    method Splice(at: nat, inserted: Bytes)
      requires at <= |bytes|
      modifies this
      ensures bytes == old(bytes[..at]) + inserted + old(bytes[at..])
    {
      bytes := bytes[..at] + inserted + bytes[at..];
    }

    /** Move the six payload offsets; an error exactly when one is cut off or leaves 32 bits. */
    method AdjustPayloadOffsets(delta: int) returns (r: Result<(), string>)
      modifies this
      ensures |bytes| == |old(bytes)|
      ensures r.Ok? <==> |old(bytes)| >= 60 && OffsetsFit(old(bytes), delta)
      ensures r.Ok? ==> Shifted(old(bytes), bytes, delta, 6)
    {
      ghost var t := bytes;
      for k := 0 to 6
        invariant |bytes| == |t| && (k > 0 ==> |t| >= 12 + 8 * k)
        invariant |t| >= 60 ==> Shifted(t, bytes, delta, k)
        invariant |t| >= 60 ==> forall j: nat :: j < k ==> 0 <= Offset(t, j) + delta < U32_LIMIT
      {
        var position := BufferAt(k) + 4;
        if position + 4 > |bytes| {
          return Err("NTLM authenticate security buffer is truncated");
        }
        var offset := FromLittleEndian(bytes, position) + delta;
        if offset < 0 || offset >= U32_LIMIT {
          assert |t| >= 60 ==> FromLittleEndian(bytes, position) == Offset(t, k);
          return Err("NTLM authenticate security buffer offset overflowed");
        }
        if |bytes| >= 60 {
          WriteOffsetIs(bytes, k, offset);
        }
        bytes := WriteOffset(bytes, k, offset);
      }
      return Ok(());
    }

    /** Drop an absent version field and open a zeroed code field, moving the offsets along. */
    method MakeRoom(hasVersion: bool) returns (r: Result<(), string>)
      requires |bytes| >= 72
      modifies this
      ensures r.Ok? <==> OffsetsMovable(old(bytes), hasVersion)
      ensures r.Ok? ==> Rewritten(old(bytes), bytes, hasVersion)
      ensures r.Ok? ==> bytes[MicOffset(hasVersion)..MicOffset(hasVersion) + MIC_LENGTH] == ZEROS
    {
      ghost var t := bytes;
      if !hasVersion {
        Drain(VERSION_OFFSET, VERSION_OFFSET + VERSION_LENGTH);
        OffsetReads(t, bytes);
        r := AdjustPayloadOffsets(-(VERSION_LENGTH as int));
        if r.Err? {
          return;
        }
      }
      ghost var before := bytes;
      Splice(MicOffset(hasVersion), ZEROS);
      OffsetReads(before, bytes);
      ghost var at := MicOffset(hasVersion);
      assert bytes[at + MIC_LENGTH..] == before[at..] == t[72..];
      r := AdjustPayloadOffsets(MIC_LENGTH);
    }
  }

  lemma MovableMeans(t: Token, hasVersion: bool)
    requires |t| >= 60
    ensures OffsetsMovable(t, hasVersion) <==>
            forall p :: p in {16, 24, 32, 40, 48, 56} ==>
                          var offset := FromLittleEndian(t, p);
                          (hasVersion || offset >= 8) && offset + (if hasVersion then 16 else 8) < 4294967296
  {
    OffsetPlaces(t);
  }

  lemma OffsetPlaces(t: Token)
    requires |t| >= 60
    ensures forall p :: p in {16, 24, 32, 40, 48, 56} ==> p == 16 + 8 * ((p - 16) / 8)
                                                          && FromLittleEndian(t, p) == Offset(t, (p - 16) / 8)
    ensures forall k: nat :: k < 6 ==> 16 + 8 * k in {16, 24, 32, 40, 48, 56}
                                       && Offset(t, k) == FromLittleEndian(t, 16 + 8 * k)
  {
  }

  /** Filling in the code changes neither the header nor the payloads. */
  lemma SigningKeepsRewriting(t: Token, unsigned: Token, mic: Digest, hasVersion: bool)
    requires |t| >= 72 && Rewritten(t, unsigned, hasVersion)
    requires unsigned[MicOffset(hasVersion)..MicOffset(hasVersion) + MIC_LENGTH] == ZEROS
    ensures var at := MicOffset(hasVersion);
            var out := unsigned[..at] + mic + unsigned[at + MIC_LENGTH..];
            Rewritten(t, out, hasVersion) && Unsigned(out, at) == unsigned
  {
    var at := MicOffset(hasVersion);
    var out := unsigned[..at] + mic + unsigned[at + MIC_LENGTH..];
    assert out[..at] == unsigned[..at] && out[at + MIC_LENGTH..] == unsigned[at + MIC_LENGTH..];
    assert out[..60] == out[..at][..60] && unsigned[..60] == unsigned[..at][..60];
    OffsetReads(unsigned, out);
    assert unsigned == unsigned[..at] + unsigned[at..at + MIC_LENGTH] + unsigned[at + MIC_LENGTH..];
  }

  /**
   Sign a token. It fails exactly when the token is too short or an offset cannot
   be moved; otherwise only the sixteen code bytes differ from the hashed token.
   */
  method AddMessageIntegrityCode(authenticate: Token, negotiate: Bytes, challenge: Bytes,
                                 key: Bytes, hasVersion: bool, hmac: (Bytes, Bytes) -> Digest)
    returns (r: Result<Token, string>)
    ensures r.Ok? <==> |authenticate| >= 72 && OffsetsMovable(authenticate, hasVersion)
    ensures r.Ok? ==> Rewritten(authenticate, r.value, hasVersion)
    ensures r.Ok? ==>
              var (out, at) := (r.value, MicOffset(hasVersion));
              out[at..at + MIC_LENGTH] == hmac(key, negotiate + challenge + Unsigned(out, at))
    ensures r.Ok? <==>
            && |authenticate| >= 72
            && forall p :: p in {16, 24, 32, 40, 48, 56} ==>
                             var offset := FromLittleEndian(authenticate, p);
                             (hasVersion || offset >= 8) && offset + (if hasVersion then 16 else 8) < 4294967296
    ensures r.Ok? ==>
              var (out, at) := (r.value, if hasVersion then 72 else 64);
              && |out| == |authenticate| + (if hasVersion then 16 else 8)
              && (forall i :: 0 <= i < at && !(16 <= i < 60 && i % 8 < 4) ==> out[i] == authenticate[i])
              && (forall p :: p in {16, 24, 32, 40, 48, 56} ==>
                                FromLittleEndian(out, p) ==
                                FromLittleEndian(authenticate, p) + if hasVersion then 16 else 8)
              && out[at + 16..] == authenticate[72..]
              && out[at..at + 16] == hmac(key, negotiate + challenge + (out[..at] +
                                          [0, 0, 0, 0, 0, 0, 0, 0, 0, 0, 0, 0, 0, 0, 0, 0] + out[at + 16..]))
  {
    if |authenticate| >= 72 {
      MovableMeans(authenticate, hasVersion);
    }
    if |authenticate| < VERSION_OFFSET + VERSION_LENGTH {
      return Err("NTLM authenticate token is truncated");
    }
    var token := new TokenBuffer(authenticate);
    var made := token.MakeRoom(hasVersion);
    if made.Err? {
      return Err(made.error);
    }
    var at := MicOffset(hasVersion);
    var unsigned := token.bytes;
    var mic := hmac(key, negotiate + challenge + unsigned);
    SigningKeepsRewriting(authenticate, unsigned, mic, hasVersion);
    var signed := unsigned[..at] + mic + unsigned[at + MIC_LENGTH..];
    OffsetPlaces(authenticate);
    OffsetPlaces(signed);
    return Ok(signed);
  }

  lemma SliceOfDrop(s: Bytes, a: nat, i: nat, j: nat)
    requires a <= i <= j <= |s|
    ensures s[i..j] == s[a..][i - a..j - a]
  {
  }

  lemma LengthUnchanged(t: Token, out: Token, hasVersion: bool, k: nat)
    requires |t| >= 72 && Rewritten(t, out, hasVersion) && k < 6
    ensures Length(out, k) == Length(t, k)
  {
    var p := BufferAt(k);
    assert !OffsetByte(p) && !OffsetByte(p + 1);
  }

  /** Every payload that started after the version field reads the same, cut off or not. */
  lemma PayloadsUnchanged(t: Token, out: Token, hasVersion: bool, k: nat)
    requires |t| >= 72 && Rewritten(t, out, hasVersion) && k < 6 && Offset(t, k) >= 72
    ensures Payload(out, k) == Payload(t, k)
    ensures var offset, moved := FromLittleEndian(t, 16 + 8 * k), FromLittleEndian(out, 16 + 8 * k);
            var length := t[12 + 8 * k] as nat + 256 * (t[13 + 8 * k] as nat);
            && length == out[12 + 8 * k] as nat + 256 * (out[13 + 8 * k] as nat)
            && (offset + length <= |t| <==> moved + length <= |out|)
            && (offset + length <= |t| ==> out[moved..moved + length] == t[offset..offset + length])
  {
    LengthUnchanged(t, out, hasVersion, k);
    var offset, length, growth := Offset(t, k), Length(t, k), Growth(hasVersion);
    if offset + length <= |t| {
      SliceOfDrop(t, 72, offset, offset + length);
      SliceOfDrop(out, 72 + growth, offset + growth, offset + growth + length);
    }
  }
}

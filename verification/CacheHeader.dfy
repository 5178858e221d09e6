/** The fixed-size header of the generation cache, byte by byte. */
module CacheHeader {
  import opened Options
  import opened Words

  const DIGEST_LEN := 32

  function Zeros(n: nat): (r: Bytes)
    ensures |r| == n && forall i :: 0 <= i < n ==> r[i] == 0
  {
    if n == 0 then [] else [0] + Zeros(n - 1)
  }

  type Digest = d: Bytes | |d| == DIGEST_LEN witness Zeros(DIGEST_LEN)

  const ZERO: Digest := Zeros(DIGEST_LEN)

  /** A hash function; the source uses SHA-256. */
  type Hash = Bytes -> Digest

  // ----- Little-endian words

  function Pow256(n: nat): nat {
    if n == 0 then 1 else 256 * Pow256(n - 1)
  }

  function LittleEndian(x: nat, n: nat): (r: Bytes)
    ensures |r| == n
  {
    if n == 0 then [] else [x % 256] + LittleEndian(x / 256, n - 1)
  }

  function FromLittleEndian(b: Bytes): nat {
    if |b| == 0 then 0 else b[0] + 256 * FromLittleEndian(b[1..])
  }

  lemma {:induction false} WordRoundTrip(x: nat, n: nat)
    requires x < Pow256(n)
    ensures FromLittleEndian(LittleEndian(x, n)) == x
  {
    if n > 0 {
      WordRoundTrip(x / 256, n - 1);
      assert LittleEndian(x, n)[1..] == LittleEndian(x / 256, n - 1);
    }
  }

  lemma {:induction false} BytesRoundTrip(b: Bytes)
    ensures FromLittleEndian(b) < Pow256(|b|)
    ensures LittleEndian(FromLittleEndian(b), |b|) == b
  {
    if |b| > 0 {
      BytesRoundTrip(b[1..]);
      LowByte(b[0], FromLittleEndian(b[1..]));
      assert b == [b[0]] + b[1..];
    }
  }

  lemma LowByte(low: byte, high: nat)
    ensures (low + 256 * high) % 256 == low && (low + 256 * high) / 256 == high
  {
  }

  lemma WordBounds()
    ensures Pow256(4) == U32_MAX + 1 && Pow256(8) == U64_MAX + 1
  {
    assert Pow256(4) == 256 * (256 * (256 * (256 * Pow256(0))));
    assert Pow256(8) == 256 * (256 * (256 * (256 * Pow256(4))));
  }

  // ----- The header

  /** `TOKENXG` and a zero byte. */
  const MAGIC: Bytes := [84, 79, 75, 69, 78, 88, 71, 0]
  const SCHEMA_VERSION: nat := 19

  const RETRY_ATTEMPT_OFFSET := 60
  const SIGNATURE_OFFSET := 72
  const DECODED_LEN_OFFSET := 104
  const SIGNED_LEN := 112
  const HEADER_LEN := 144

  datatype Header = Header(
    savedAt: nat, bodyLen: nat, decodedLen: nat, bodyDigest: Digest, attempt: nat, notBefore: nat, signature: Digest)
  {
    /** Every field has the width it is stored with. */
    ghost predicate Fits() {
      savedAt <= U64_MAX && bodyLen <= U64_MAX && decodedLen <= U64_MAX && notBefore <= U64_MAX && attempt <= U32_MAX
    }

    /** No schedule at all, or a signature, a positive attempt and a due time not before the save. */
    predicate RetryMetadataValid() {
      if signature == ZERO then attempt == 0 && notBefore == 0 else attempt > 0 && notBefore >= savedAt
    }

    function ExpectedFileLen(): nat {
      HEADER_LEN + bodyLen
    }
  }

  datatype HeaderError =
    | Truncated
    | UnknownMagic
    | UnsupportedSchema(version: nat)
    | DigestMismatch
    | InvalidRetryMetadata

  /** The part of the header that its digest covers. */
  function Signed(h: Header): (r: Bytes)
    ensures |r| == SIGNED_LEN
  {
    MAGIC + LittleEndian(SCHEMA_VERSION, 4) + LittleEndian(h.savedAt, 8) + LittleEndian(h.bodyLen, 8)
    + h.bodyDigest + LittleEndian(h.attempt, 4) + LittleEndian(h.notBefore, 8) + h.signature
    + LittleEndian(h.decodedLen, 8)
  }

  function Encode(h: Header, hash: Hash): (r: Bytes)
    ensures |r| == HEADER_LEN
  {
    Signed(h) + hash(Signed(h))
  }

  /** The fields at their offsets. */
  function Fields(b: Bytes): Header
    requires |b| >= SIGNED_LEN
  {
    Header(FromLittleEndian(b[12..20]), FromLittleEndian(b[20..28]), FromLittleEndian(b[104..112]), b[28..60],
           FromLittleEndian(b[60..64]), FromLittleEndian(b[64..72]), b[72..104])
  }

  function Decode(b: Bytes, hash: Hash): Result<Header, HeaderError> {
    if |b| < 8 then Err(Truncated)
    else if b[..8] != MAGIC then Err(UnknownMagic)
    else if |b| < 12 then Err(Truncated)
    else if FromLittleEndian(b[8..12]) != SCHEMA_VERSION then Err(UnsupportedSchema(FromLittleEndian(b[8..12])))
    else if |b| < HEADER_LEN then Err(Truncated)
    else if hash(b[..SIGNED_LEN]) != b[SIGNED_LEN..HEADER_LEN] then Err(DigestMismatch)
    else if !Fields(b).RetryMetadataValid() then Err(InvalidRetryMetadata)
    else Ok(Fields(b))
  }

  /** Where each field sits in the signed part. */
  lemma FirstSlices(h: Header)
    ensures var b := Signed(h);
      && b[..8] == MAGIC && b[8..12] == LittleEndian(SCHEMA_VERSION, 4)
      && b[12..20] == LittleEndian(h.savedAt, 8)
  {
  }

  lemma MiddleSlices(h: Header)
    ensures var b := Signed(h);
      && b[20..28] == LittleEndian(h.bodyLen, 8) && b[28..60] == h.bodyDigest
      && b[60..64] == LittleEndian(h.attempt, 4)
  {
  }

  lemma LastSlices(h: Header)
    ensures var b := Signed(h);
      && b[64..72] == LittleEndian(h.notBefore, 8) && b[72..104] == h.signature
      && b[104..112] == LittleEndian(h.decodedLen, 8)
  {
  }

  lemma SliceOfPrefix(s: Bytes, tail: Bytes, i: nat, j: nat)
    requires i <= j <= |s|
    ensures (s + tail)[i..j] == s[i..j]
  {
  }

  lemma SlicesStay(s: Bytes, tail: Bytes)
    requires |s| == SIGNED_LEN
    ensures Fields(s + tail) == Fields(s) && (s + tail)[8..12] == s[8..12]
  {
    SliceOfPrefix(s, tail, 8, 12);
    SliceOfPrefix(s, tail, 12, 20);
    SliceOfPrefix(s, tail, 20, 28);
    SliceOfPrefix(s, tail, 28, 60);
    SliceOfPrefix(s, tail, 60, 64);
    SliceOfPrefix(s, tail, 64, 72);
    SliceOfPrefix(s, tail, 72, 104);
    SliceOfPrefix(s, tail, 104, 112);
  }

  lemma FieldsOfSigned(h: Header, tail: Bytes)
    requires h.Fits()
    ensures Fields(Signed(h) + tail) == h
    ensures FromLittleEndian((Signed(h) + tail)[8..12]) == SCHEMA_VERSION
  {
    FirstSlices(h);
    MiddleSlices(h);
    LastSlices(h);
    WordBounds();
    SlicesStay(Signed(h), tail);
    WordRoundTrip(SCHEMA_VERSION, 4);
    WordRoundTrip(h.savedAt, 8);
    WordRoundTrip(h.bodyLen, 8);
    WordRoundTrip(h.attempt, 4);
    WordRoundTrip(h.notBefore, 8);
    WordRoundTrip(h.decodedLen, 8);
  }

  lemma ThreeParts(signed: Bytes, digest: Bytes, body: Bytes)
    requires |signed| == SIGNED_LEN && |digest| == HEADER_LEN - SIGNED_LEN
    ensures var b := signed + digest + body;
      b[..8] == signed[..8] && b[..SIGNED_LEN] == signed && b[SIGNED_LEN..HEADER_LEN] == digest
  {
  }

  /** A header decodes to itself, whatever follows it, unless its retry fields contradict each other. */
  lemma EncodeThenDecode(h: Header, hash: Hash, body: Bytes)
    requires h.Fits()
    ensures Decode(Encode(h, hash) + body, hash) == if h.RetryMetadataValid() then Ok(h) else Err(InvalidRetryMetadata)
  {
    var b := Encode(h, hash) + body;
    FirstSlices(h);
    assert b == Signed(h) + (hash(Signed(h)) + body);
    FieldsOfSigned(h, hash(Signed(h)) + body);
    ThreeParts(Signed(h), hash(Signed(h)), body);
  }

  lemma Cut(b: Bytes)
    requires |b| >= SIGNED_LEN
    ensures b[..8] + b[8..12] + b[12..20] + b[20..28] + b[28..60] + b[60..64] + b[64..72] + b[72..104] + b[104..112]
         == b[..SIGNED_LEN]
  {
    assert b[..8] + b[8..12] == b[..12];
    assert b[..12] + b[12..20] == b[..20];
    assert b[..20] + b[20..28] == b[..28];
    assert b[..28] + b[28..60] == b[..60];
    assert b[..60] + b[60..64] == b[..64];
    assert b[..64] + b[64..72] == b[..72];
    assert b[..72] + b[72..104] == b[..104];
    assert b[..104] + b[104..112] == b[..112];
  }

  lemma SignedOfFields(b: Bytes)
    requires |b| >= SIGNED_LEN && b[..8] == MAGIC && FromLittleEndian(b[8..12]) == SCHEMA_VERSION
    ensures Signed(Fields(b)) == b[..SIGNED_LEN] && Fields(b).Fits()
  {
    WordBounds();
    BytesRoundTrip(b[8..12]);
    BytesRoundTrip(b[12..20]);
    BytesRoundTrip(b[20..28]);
    BytesRoundTrip(b[60..64]);
    BytesRoundTrip(b[64..72]);
    BytesRoundTrip(b[104..112]);
    Cut(b);
  }

  /** Bytes that are accepted are exactly the encoding of the header they decode to. */
  lemma DecodeThenEncode(b: Bytes, hash: Hash)
    requires Decode(b, hash).Ok?
    ensures Encode(Decode(b, hash).value, hash) == b[..HEADER_LEN]
    ensures Decode(b, hash).value.Fits() && Decode(b, hash).value.RetryMetadataValid()
  {
    SignedOfFields(b);
    assert b[..SIGNED_LEN] + b[SIGNED_LEN..HEADER_LEN] == b[..HEADER_LEN];
  }

  // ----- The layout

  lemma {:induction false} Pow256IsPositive(n: nat)
    ensures Pow256(n) > 0
  {
    if n > 0 {
      Pow256IsPositive(n - 1);
    }
  }

  /** The byte of weight 256 to the `k` stands at place `k`. */
  lemma {:induction false} LittleEndianAt(x: nat, n: nat, k: nat)
    requires k < n
    ensures Pow256(k) > 0 && LittleEndian(x, n)[k] == x / Pow256(k) % 256
  {
    Pow256IsPositive(k);
    if k > 0 {
      LittleEndianAt(x / 256, n - 1, k - 1);
      DivideTwice(x, 256, Pow256(k - 1));
    }
  }

  /** `n` bytes from `at` on hold a number, the low byte first. */
  ghost predicate HoldsWord(b: Bytes, at: nat, n: nat, x: nat) {
    at + n <= |b| && forall k: nat :: k < n ==> Pow256(k) > 0 && b[at + k] == x / Pow256(k) % 256
  }

  lemma SliceHoldsWord(b: Bytes, at: nat, n: nat, x: nat)
    requires at + n <= |b| && b[at..at + n] == LittleEndian(x, n)
    ensures HoldsWord(b, at, n, x)
  {
    forall k: nat | k < n ensures Pow256(k) > 0 && b[at + k] == x / Pow256(k) % 256 {
      LittleEndianAt(x, n, k);
      assert b[at + k] == b[at..at + n][k];
    }
  }

  /** Which bytes of the encoded header hold what. */
  lemma HeaderIsLaidOut(h: Header, hash: Hash)
    ensures var b := Encode(h, hash);
      && b[..8] == ['T' as nat, 'O' as nat, 'K' as nat, 'E' as nat, 'N' as nat, 'X' as nat, 'G' as nat, 0]
      && HoldsWord(b, 8, 4, 19) && HoldsWord(b, 12, 8, h.savedAt) && HoldsWord(b, 20, 8, h.bodyLen)
      && b[28..60] == h.bodyDigest && HoldsWord(b, 60, 4, h.attempt) && HoldsWord(b, 64, 8, h.notBefore)
      && b[72..104] == h.signature && HoldsWord(b, 104, 8, h.decodedLen)
      && b[112..144] == hash(b[..112])
  {
    var b, s := Encode(h, hash), Signed(h);
    FirstSlices(h);
    MiddleSlices(h);
    LastSlices(h);
    assert b[..8] == s[..8] && b[..112] == s;
    SliceOfPrefix(s, hash(s), 28, 60);
    SliceOfPrefix(s, hash(s), 72, 104);
    WordsOfHeader(b, h);
  }

  lemma WordsOfHeader(b: Bytes, h: Header)
    requires |b| == HEADER_LEN && b[..112] == Signed(h)
    ensures HoldsWord(b, 8, 4, 19) && HoldsWord(b, 12, 8, h.savedAt) && HoldsWord(b, 20, 8, h.bodyLen)
    ensures HoldsWord(b, 60, 4, h.attempt) && HoldsWord(b, 64, 8, h.notBefore) && HoldsWord(b, 104, 8, h.decodedLen)
  {
    FirstSlices(h);
    MiddleSlices(h);
    LastSlices(h);
    var s := b[..112];
    assert b == s + b[112..];
    SliceOfPrefix(s, b[112..], 8, 12);
    SliceOfPrefix(s, b[112..], 12, 20);
    SliceOfPrefix(s, b[112..], 20, 28);
    SliceOfPrefix(s, b[112..], 60, 64);
    SliceOfPrefix(s, b[112..], 64, 72);
    SliceOfPrefix(s, b[112..], 104, 112);
    SliceHoldsWord(b, 8, 4, 19);
    SliceHoldsWord(b, 12, 8, h.savedAt);
    SliceHoldsWord(b, 20, 8, h.bodyLen);
    SliceHoldsWord(b, 60, 4, h.attempt);
    SliceHoldsWord(b, 64, 8, h.notBefore);
    SliceHoldsWord(b, 104, 8, h.decodedLen);
  }

  // ----- Filling the buffer

  /** One field copied to its offset, behind what is already there. */
  method Put(bytes: array<byte>, at: nat, field: Bytes)
    requires at + |field| <= bytes.Length
    modifies bytes
    ensures bytes[..at + |field|] == old(bytes[..at]) + field
  {
    for i := 0 to |field|
      invariant bytes[..at + i] == old(bytes[..at]) + field[..i]
    {
      bytes[at + i] := field[i];
    }
  }

  /** The header written field by field into a zeroed buffer, its digest last. */
  method EncodeInPlace(h: Header, hash: Hash) returns (bytes: array<byte>)
    ensures fresh(bytes) && bytes[..] == Encode(h, hash)
  {
    bytes := new byte[HEADER_LEN](_ => 0);
    Put(bytes, 0, MAGIC);
    assert bytes[..8] == MAGIC;
    Put(bytes, 8, LittleEndian(SCHEMA_VERSION, 4));
    Put(bytes, 12, LittleEndian(h.savedAt, 8));
    Put(bytes, 20, LittleEndian(h.bodyLen, 8));
    Put(bytes, 28, h.bodyDigest);
    Put(bytes, RETRY_ATTEMPT_OFFSET, LittleEndian(h.attempt, 4));
    Put(bytes, 64, LittleEndian(h.notBefore, 8));
    Put(bytes, SIGNATURE_OFFSET, h.signature);
    Put(bytes, DECODED_LEN_OFFSET, LittleEndian(h.decodedLen, 8));
    assert bytes[..SIGNED_LEN] == Signed(h);
    Put(bytes, SIGNED_LEN, hash(bytes[..SIGNED_LEN]));
    assert bytes[..] == bytes[..HEADER_LEN];
  }
}

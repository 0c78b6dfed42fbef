/** The file format of the bytecode cache: magic, signature and source hash in front of the
bytecode. The magic, the signature and the content hash are those of the program; nothing
depends on which they are. */
module BytecodeCache {
  import opened Options

  newtype Byte = b: int | 0 <= b < 256

  type Bytes = seq<Byte>

  const MAGIC_LENGTH := 4
  const U16_LIMIT := 0x1_0000
  const U64_LIMIT := 0x1_0000_0000_0000_0000

  /** `n` in `width` bytes, least significant first; higher bytes are cut off. */
  function ToLittleEndian(n: nat, width: nat): (r: Bytes)
    ensures |r| == width
  {
    if width == 0 then [] else [(n % 256) as Byte] + ToLittleEndian(n / 256, width - 1)
  }

  function FromLittleEndian(bytes: Bytes): nat {
    if bytes == [] then 0 else bytes[0] as nat + 256 * FromLittleEndian(bytes[1..])
  }

  function Power256(width: nat): nat {
    if width == 0 then 1 else 256 * Power256(width - 1)
  }

  lemma {:induction false} FromTo(n: nat, width: nat)
    requires n < Power256(width)
    ensures FromLittleEndian(ToLittleEndian(n, width)) == n
  {
    if width > 0 {
      FromTo(n / 256, width - 1);
    }
  }

  lemma {:induction false} ToFrom(bytes: Bytes)
    ensures FromLittleEndian(bytes) < Power256(|bytes|)
    ensures ToLittleEndian(FromLittleEndian(bytes), |bytes|) == bytes
  {
    if bytes != [] {
      ToFrom(bytes[1..]);
      assert bytes == [bytes[0]] + bytes[1..];
    }
  }

  lemma Widths()
    ensures Power256(2) == U16_LIMIT && Power256(8) == U64_LIMIT
  {
    assert Power256(4) == 0x1_0000_0000;
  }

  /** What the program writes at the front of its cache files. */
  datatype Header = Header(magic: Bytes, signature: Bytes)

  ghost predicate ValidHeader(h: Header) {
    |h.magic| == MAGIC_LENGTH
  }

  type Hash = n: nat | n < U64_LIMIT

  /** The file for this bytecode. The signature's length is stored in 16 bits. */
  function Encoded(h: Header, sourceHash: Hash, bytecode: Bytes): Bytes {
    h.magic + ToLittleEndian(|h.signature| % U16_LIMIT, 2) + h.signature + ToLittleEndian(sourceHash, 8) + bytecode
  }

  method EncodeCache(h: Header, sourceHash: Hash, bytecode: Bytes) returns (buf: Bytes)
    ensures buf == Encoded(h, sourceHash, bytecode)
  {
    var sigLen := |h.signature| % U16_LIMIT;
    buf := [];
    buf := buf + h.magic;
    buf := buf + ToLittleEndian(sigLen, 2);
    buf := buf + h.signature;
    buf := buf + ToLittleEndian(sourceHash, 8);
    buf := buf + bytecode;
  }

  /** The header fields of a file, by position. */
  ghost predicate HasHeader(h: Header, sourceHash: Hash, data: Bytes) {
    var n := |h.signature|;
    && |data| >= n + 14
    && data[..4] == h.magic && data[4..6] == ToLittleEndian(n % U16_LIMIT, 2) && data[6..n + 6] == h.signature
    && data[n + 6..n + 14] == ToLittleEndian(sourceHash, 8)
  }

  lemma EncodedHeader(h: Header, sourceHash: Hash, data: Bytes, bytecode: Bytes)
    requires ValidHeader(h)
    ensures data == Encoded(h, sourceHash, bytecode) <==>
      HasHeader(h, sourceHash, data) && bytecode == data[|h.signature| + 14..]
  {
    var n := |h.signature|;
    if HasHeader(h, sourceHash, data) {
      assert data == data[..4] + data[4..6] + data[6..n + 6] + data[n + 6..n + 14] + data[n + 14..];
    }
  }

  lemma StoredLength(h: Header, data: Bytes)
    requires |h.signature| < U16_LIMIT && |data| >= 6
    ensures data[4..6] == ToLittleEndian(|h.signature| % U16_LIMIT, 2) <==> FromLittleEndian(data[4..6]) == |h.signature|
  {
    hide ToLittleEndian, FromLittleEndian, Power256;
    Widths();
    FromTo(|h.signature|, 2);
    ToFrom(data[4..6]);
  }

  lemma StoredLengthFits(bytes: Bytes)
    requires |bytes| == 2
    ensures FromLittleEndian(bytes) < U16_LIMIT
  {
    Widths();
    ToFrom(bytes);
  }

  lemma StoredHash(sourceHash: Hash, bytes: Bytes)
    requires |bytes| == 8
    ensures bytes == ToLittleEndian(sourceHash, 8) <==> FromLittleEndian(bytes) == sourceHash
  {
    hide ToLittleEndian, FromLittleEndian, Power256;
    Widths();
    FromTo(sourceHash, 8);
    ToFrom(bytes);
  }

  lemma TwoThen(b: Bytes)
    requires |b| >= 2
    ensures FromLittleEndian(b) == b[0] as int + 0x100 * b[1] as int + 0x1_0000 * FromLittleEndian(b[2..])
  {
    assert b[1..][1..] == b[2..] && b[1..][0] == b[1];
    assert FromLittleEndian(b[1..]) == b[1] as int + 0x100 * FromLittleEndian(b[2..]);
  }

  lemma FourThen(b: Bytes)
    requires |b| >= 4
    ensures FromLittleEndian(b) == b[0] as int + 0x100 * b[1] as int + 0x1_0000 * b[2] as int +
                                   0x100_0000 * b[3] as int + 0x1_0000_0000 * FromLittleEndian(b[4..])
  {
    TwoThen(b);
    TwoThen(b[2..]);
    hide FromLittleEndian;
    assert b[2..][2..] == b[4..] && b[2..][0] == b[2] && b[2..][1] == b[3];
  }

  /** The value of eight bytes, the least significant first. */
  lemma EightBytes(b: Bytes)
    requires |b| == 8
    ensures FromLittleEndian(b) ==
      b[0] as int + 0x100 * b[1] as int + 0x1_0000 * b[2] as int + 0x100_0000 * b[3] as int + 0x1_0000_0000 * b[4] as int +
      0x100_0000_0000 * b[5] as int + 0x1_0000_0000_0000 * b[6] as int + 0x100_0000_0000_0000 * b[7] as int
  {
    FourThen(b);
    FourThen(b[4..]);
    assert FromLittleEndian(b[4..][4..]) == 0;
    hide FromLittleEndian;
    assert forall k :: 0 <= k < 4 ==> b[4..][k] == b[4 + k];
  }

  /** A file byte by byte: four of magic, two for the length of the signature, the signature,
  eight for the source hash, the bytecode; both numbers with the least significant byte first. */
  lemma EncodedLayout(h: Header, sourceHash: Hash, bytecode: Bytes)
    requires ValidHeader(h) && |h.signature| < 65536
    ensures
      var data, n := Encoded(h, sourceHash, bytecode), |h.signature|;
      && |data| == 4 + 2 + n + 8 + |bytecode|
      && data[..4] == h.magic && data[6..6 + n] == h.signature && data[14 + n..] == bytecode
      && data[4] as int + 0x100 * data[5] as int == n
      && data[6 + n] as int + 0x100 * data[7 + n] as int + 0x1_0000 * data[8 + n] as int +
         0x100_0000 * data[9 + n] as int + 0x1_0000_0000 * data[10 + n] as int + 0x100_0000_0000 * data[11 + n] as int +
         0x1_0000_0000_0000 * data[12 + n] as int + 0x100_0000_0000_0000 * data[13 + n] as int == sourceHash
  {
    var data, n := Encoded(h, sourceHash, bytecode), |h.signature|;
    EncodedHeader(h, sourceHash, data, bytecode);
    StoredLength(h, data);
    TwoThen(data[4..6]);
    assert FromLittleEndian(data[4..6][2..]) == 0;
    var hash := data[n + 6..n + 14];
    StoredHash(sourceHash, hash);
    EightBytes(hash);
    hide Encoded, ToLittleEndian, FromLittleEndian;
    assert forall k :: 0 <= k < 8 ==> hash[k] == data[n + 6 + k];
  }

  /** Reads the header; on success the bytecode is what follows it. */
  method ReadHeader(h: Header, sourceHash: Hash, data: Bytes) returns (r: Option<Bytes>)
    requires ValidHeader(h)
    ensures r.Some? <==> |h.signature| < U16_LIMIT && HasHeader(h, sourceHash, data)
    ensures r.Some? ==> |h.signature| + 14 <= |data| && r.value == data[|h.signature| + 14..]
  {
    hide ToLittleEndian, FromLittleEndian, Power256;
    if |data| < 4 || data[..4] != h.magic {
      return None;
    }
    var rest := data[4..];
    if |rest| < 2 {
      return None;
    }
    assert rest[..2] == data[4..6];
    var sigLen := FromLittleEndian(rest[..2]);
    StoredLengthFits(data[4..6]);
    if |h.signature| < U16_LIMIT { StoredLength(h, data); }
    rest := rest[2..];
    if |rest| < sigLen {
      return None;
    }
    var cachedSig := rest[..sigLen];
    assert cachedSig == data[6..sigLen + 6];
    if cachedSig != h.signature {
      return None;
    }
    rest := rest[sigLen..];
    assert rest == data[sigLen + 6..];
    if |rest| < 8 {
      return None;
    }
    assert rest[..8] == data[sigLen + 6..sigLen + 14];
    StoredHash(sourceHash, rest[..8]);
    var cachedHash := FromLittleEndian(rest[..8]);
    if cachedHash != sourceHash {
      return None;
    }
    assert rest[8..] == data[sigLen + 14..];
    return Some(rest[8..]);
  }

  /** Decoding accepts exactly the files that encoding produces for the same header and source,
  provided the signature's length fits its field; otherwise it accepts nothing. */
  method DecodeCache(h: Header, sourceHash: Hash, data: Bytes) returns (r: Option<Bytes>)
    requires ValidHeader(h)
    ensures forall b :: r == Some(b) <==> |h.signature| < U16_LIMIT && data == Encoded(h, sourceHash, b)
  {
    r := ReadHeader(h, sourceHash, data);
    forall b ensures data == Encoded(h, sourceHash, b) <==> HasHeader(h, sourceHash, data) && b == data[|h.signature| + 14..] {
      EncodedHeader(h, sourceHash, data, b);
    }
    hide Encoded, HasHeader;
  }

  /** One file stands for one signature, one source hash and one bytecode. */
  lemma EncodedOnce(h: Header, sourceHash: Hash, b: Bytes, h': Header, sourceHash': Hash, b': Bytes)
    requires ValidHeader(h) && ValidHeader(h') && |h.signature| < U16_LIMIT && |h'.signature| < U16_LIMIT
    requires Encoded(h, sourceHash, b) == Encoded(h', sourceHash', b')
    ensures h == h' && sourceHash == sourceHash' && b == b'
  {
    var data := Encoded(h, sourceHash, b);
    EncodedHeader(h, sourceHash, data, b);
    EncodedHeader(h', sourceHash', data, b');
    hide Encoded, ToLittleEndian, FromLittleEndian;
    StoredLength(h, data);
    StoredLength(h', data);
    var n := |h.signature|;
    StoredHash(sourceHash, data[n + 6..n + 14]);
    StoredHash(sourceHash', data[n + 6..n + 14]);
  }
}

/** The on-disk layout of a vault file: a 128-byte header followed by
    `{iv, size, ciphertext}` blocks, with integers stored as four
    little-endian bytes. */
module VaultFormat {
  import opened Base
  import opened Errors
  import opened NumText
  import opened Crypto
  import opened InStream

  /** "OVLT" */
  const MAGIC: seq<Byte> := [0x4F, 0x56, 0x4C, 0x54]
  const MAGIC_SIZE: nat := 4
  const VERSION: Int32 := 1
  const HEADER_SIZE: nat := 128

  /** Bytes the header fields occupy: magic, version, salt, iterations, hash. */
  const HEADER_USED: nat := MAGIC_SIZE + 4 + SALT_SIZE + 4 + HASH_SIZE

  /** Reserved zero bytes closing the header: 128 - 60 = 68. */
  const PADDING: nat := HEADER_SIZE - HEADER_USED

  /** The header fields a vault stores. */
  datatype Header = Header(salt: seq<Byte>, iterations: Int32, hash: seq<Byte>)

  predicate WellSized(h: Header)
  {
    |h.salt| == SALT_SIZE && |h.hash| == HASH_SIZE
  }

  /** `writeHeader`: magic, version 1, salt, iterations, hash, then the
      zero padding up to 128 bytes. */
  function EncodeHeader(h: Header): (b: seq<Byte>)
    requires WellSized(h)
    ensures |b| == HEADER_SIZE
    ensures b[..4] == MAGIC && FromLe32(b[4..8]) == VERSION
    ensures b[8..24] == h.salt && b[24..28] == Le32(h.iterations) && b[28..60] == h.hash
    ensures forall i :: HEADER_USED <= i < HEADER_SIZE ==> b[i] == 0
  {
    Le32RoundTrip(VERSION);
    var b := MAGIC + Le32(VERSION) + h.salt + Le32(h.iterations) + h.hash + Zeros(PADDING);
    assert b[4..8] == Le32(VERSION);
    assert b[60..] == Zeros(PADDING);
    b
  }

  /** `std::vector::resize(n)`: truncate, or extend with zero bytes. */
  function Resize(b: seq<Byte>, n: nat): (r: seq<Byte>)
    ensures |r| == n
    ensures |b| >= n ==> r == b[..n]
    ensures |b| < n ==> r[..|b|] == b && forall i :: |b| <= i < n ==> r[i] == 0
  {
    if |b| >= n then b[..n] else b + Zeros(n - |b|)
  }

  /** The four bytes `readHeader` compares with "OVLT". */
  function ReadMagic(st: IStream): seq<Byte>
  {
    Read(st, Zeros(MAGIC_SIZE)).1
  }

  const BAD_MAGIC: Error := CorruptedVault("Invalid vault file format")

  /** `readHeader`. The magic is checked first, then the version; after that
      nothing can fail. Short reads leave the destination's earlier contents
      in place: the salt buffer is the vault's previous salt resized to 16
      bytes, the iterations are the vault's previous value, the hash buffer is
      zeroed. The padding is skipped with a relative seek. */
  function ReadHeader(st: IStream, prevSalt: seq<Byte>, prevIterations: Int32): (r: Result<(Header, IStream)>)
    ensures (r.Err? && r.error == BAD_MAGIC) <==> ReadMagic(st) != MAGIC
    ensures r.Err? ==> r.error == BAD_MAGIC || r.error.Custom?
    ensures r.Ok? ==> WellSized(r.value.0) && r.value.1.data == st.data
  {
    var (st1, magic) := Read(st, Zeros(MAGIC_SIZE));
    if magic != MAGIC then Err(BAD_MAGIC)
    else
      var (st2, versionBytes) := Read(st1, Le32(0));
      var version := FromLe32(versionBytes);
      if version != VERSION then Err(Custom("Unsupported vault version: " + IntToString(version)))
      else
        var (st3, salt) := Read(st2, Resize(prevSalt, SALT_SIZE));
        var (st4, iterationBytes) := Read(st3, Le32(prevIterations));
        var (st5, hash) := Read(st4, Zeros(HASH_SIZE));
        Ok((Header(salt, FromLe32(iterationBytes), hash), Seek(st5, PADDING)))
  }

  /** Reading back a written header gives the same fields and leaves the
      stream just after the header, whatever the vault held before. */
  lemma {:induction false} HeaderRoundTrip(h: Header, rest: seq<Byte>, prevSalt: seq<Byte>, prevIterations: Int32)
    requires WellSized(h)
    ensures var data := EncodeHeader(h) + rest;
            ReadHeader(OpenOn(data), prevSalt, prevIterations) == Ok((h, IStream(data, HEADER_SIZE, false)))
  {
    var data := EncodeHeader(h) + rest;
    var st := OpenOn(data);
    ReadAt(st, MAGIC, Zeros(MAGIC_SIZE));
    var st1 := st.(pos := 4);
    ReadAt(st1, Le32(VERSION), Le32(0));
    Le32RoundTrip(VERSION);
    var st2 := st.(pos := 8);
    ReadAt(st2, h.salt, Resize(prevSalt, SALT_SIZE));
    var st3 := st.(pos := 24);
    assert data[24..28] == Le32(h.iterations);
    ReadAt(st3, Le32(h.iterations), Le32(prevIterations));
    Le32RoundTrip(h.iterations);
    var st4 := st.(pos := 28);
    ReadAt(st4, h.hash, Zeros(HASH_SIZE));
  }

  /** A file too short to hold the magic, or holding other bytes there, is
      reported as corrupt and as nothing else. */
  lemma {:induction false} BadMagicIsCorrupt(data: seq<Byte>, prevSalt: seq<Byte>, prevIterations: Int32)
    requires |data| < MAGIC_SIZE || data[..MAGIC_SIZE] != MAGIC
    ensures ReadHeader(OpenOn(data), prevSalt, prevIterations) == Err(BAD_MAGIC)
  {
    var st := OpenOn(data);
    if |data| < MAGIC_SIZE {
      assert Read(st, Zeros(MAGIC_SIZE)).1[|data|..] == Zeros(MAGIC_SIZE)[|data|..];
      assert Read(st, Zeros(MAGIC_SIZE)).1[3] == 0;
    }
  }

  /** A file with the right magic but another version is rejected with the
      generic exception, not as a corrupt vault. */
  lemma {:induction false} WrongVersionIsNotCorrupt(version: Int32, rest: seq<Byte>, prevSalt: seq<Byte>, prevIterations: Int32)
    requires version != VERSION
    ensures var data := MAGIC + Le32(version) + rest;
            ReadHeader(OpenOn(data), prevSalt, prevIterations)
              == Err(Custom("Unsupported vault version: " + IntToString(version)))
  {
    var data := MAGIC + Le32(version) + rest;
    var st := OpenOn(data);
    ReadAt(st, MAGIC, Zeros(MAGIC_SIZE));
    ReadAt(st.(pos := 4), Le32(version), Le32(0));
    Le32RoundTrip(version);
  }

  /** A window inside a window of the file. */
  lemma {:induction false} SubSlice(data: seq<Byte>, p: nat, b: seq<Byte>, i: nat, j: nat)
    requires p + |b| <= |data| && data[p..p + |b|] == b && i <= j <= |b|
    ensures data[p + i..p + j] == b[i..j]
  {
    var w := data[p + i..p + j];
    assert forall k :: 0 <= k < j - i ==> w[k] == b[i + k];
  }

  /** One record of the stream: the IV, the ciphertext size as an `int`, the
      ciphertext. */
  function EncodeBlock(iv: seq<Byte>, ct: seq<Byte>): (b: seq<Byte>)
    ensures |b| == |iv| + 4 + |ct|
  {
    iv + Le32(Wrap32(|ct|)) + ct
  }

  /** A block as read: its IV, its ciphertext, and the stream after it. */
  datatype Chunk = Chunk(iv: seq<Byte>, body: seq<Byte>, rest: IStream)

  const HUGE_VECTOR: Error := LengthError("cannot create std::vector larger than max_size()")

  /** Reading one block: the IV into the buffer holding the previous IV, the
      size into a zeroed `int`, then that many bytes into a fresh vector.
      A negative size makes the vector constructor throw `std::length_error`. */
  function ReadBlock(st: IStream, prevIv: seq<Byte>): (r: Result<Chunk>)
    ensures r.Err? ==> r.error == HUGE_VECTOR
    ensures r.Ok? ==> |r.value.iv| == |prevIv| && r.value.rest.data == st.data && r.value.rest.pos >= st.pos
  {
    var (st1, iv) := Read(st, prevIv);
    var (st2, sizeBytes) := Read(st1, Le32(0));
    var size := FromLe32(sizeBytes);
    if size < 0 then Err(HUGE_VECTOR)
    else
      var (st3, body) := Read(st2, Zeros(size));
      Ok(Chunk(iv, body, st3))
  }

  /** A block read fails exactly when the size field it reads is negative;
      otherwise the ciphertext buffer has that many bytes. */
  lemma {:induction false} ReadBlockFailsOnNegativeSize(st: IStream, prevIv: seq<Byte>)
    ensures ReadBlock(st, prevIv).Err? <==> FromLe32(Read(Read(st, prevIv).0, Le32(0)).1) < 0
    ensures ReadBlock(st, prevIv).Ok? ==> |ReadBlock(st, prevIv).value.body| == FromLe32(Read(Read(st, prevIv).0, Le32(0)).1)
  {
  }

  /** Reading where a block was written gives back its IV and ciphertext and
      moves past it. */
  lemma {:induction false} ReadBlockAt(st: IStream, iv: seq<Byte>, ct: seq<Byte>, prevIv: seq<Byte>)
    requires !st.failed && |iv| == IV_SIZE && |prevIv| == IV_SIZE && |ct| <= INT32_MAX
    requires At(st.data, st.pos, EncodeBlock(iv, ct))
    ensures ReadBlock(st, prevIv) == Ok(Chunk(iv, ct, IStream(st.data, st.pos + |EncodeBlock(iv, ct)|, false)))
  {
    var p := st.pos;
    BlockWindows(st.data, p, iv, ct);
    Le32RoundTrip(|ct|);
    ReadAt(st, iv, prevIv);
    ReadAt(st.(pos := p + 16), Le32(|ct|), Le32(0));
    ReadAt(st.(pos := p + 20), ct, Zeros(|ct|));
  }

  /** Where a block was written, the file holds its IV, its size and its
      ciphertext one after the other. */
  lemma {:induction false} BlockWindows(data: seq<Byte>, p: nat, iv: seq<Byte>, ct: seq<Byte>)
    requires |iv| == IV_SIZE && |ct| <= INT32_MAX
    requires At(data, p, EncodeBlock(iv, ct))
    ensures p + 20 + |ct| <= |data|
    ensures data[p..p + 16] == iv && data[p + 16..p + 20] == Le32(|ct|) && data[p + 20..p + 20 + |ct|] == ct
  {
    var b := EncodeBlock(iv, ct);
    AtIsWindow(data, p, b);
    SubSlice(data, p, b, 0, 16);
    assert b[..16] == iv;
    SubSlice(data, p, b, 16, 20);
    assert b[16..20] == Le32(|ct|);
    SubSlice(data, p, b, 20, |b|);
    assert b[20..] == ct;
  }
}

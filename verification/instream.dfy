/** A binary `std::ifstream` over a file's bytes, reduced to what the vault
    uses: `read` into an existing buffer and a relative `seekg`. */
module InStream {
  import opened Base

  /** The file contents, the read position, and whether a read has come up
      short (which sets `eofbit` and `failbit` together). */
  datatype IStream = IStream(data: seq<Byte>, pos: nat, failed: bool)

  /** A stream freshly opened on `data`. */
  function OpenOn(data: seq<Byte>): IStream
  {
    IStream(data, 0, false)
  }

  /** Bytes left before the end of the file. */
  function Available(st: IStream): nat
  {
    if st.pos < |st.data| then |st.data| - st.pos else 0
  }

  /** `read` of `|buf|` bytes into a buffer holding `buf`. A failed stream
      reads nothing. Otherwise the bytes that are there overwrite the front of
      the buffer, the rest of the buffer keeps its old contents, and the
      stream fails if there were fewer than requested. */
  function Read(st: IStream, buf: seq<Byte>): (r: (IStream, seq<Byte>))
    ensures |r.1| == |buf|
    ensures r.0.data == st.data && r.0.pos >= st.pos
    ensures r.0.failed <==> st.failed || |buf| > Available(st)
    ensures r.0.failed ==> Available(r.0) == 0 || st.failed
  {
    if st.failed || |buf| == 0 then (st, buf)
    else if |buf| <= Available(st) then (st.(pos := st.pos + |buf|), st.data[st.pos..st.pos + |buf|])
    else
      var k := Available(st);
      var got := if k == 0 then [] else st.data[st.pos..];
      (IStream(st.data, st.pos + k, true), got + buf[k..])
  }

  /** `seekg(off, std::ios::cur)`: a failed stream does not move; a good one
      may be moved past the end, where the next read fails. */
  function Seek(st: IStream, off: nat): (r: IStream)
    ensures r.data == st.data && r.failed == st.failed
    ensures !st.failed ==> r.pos == st.pos + off
  {
    if st.failed then st else st.(pos := st.pos + off)
  }

  /** Reading where the file holds `x` gives `x` and moves past it. */
  lemma {:induction false} ReadAt(st: IStream, x: seq<Byte>, buf: seq<Byte>)
    requires !st.failed && |buf| == |x|
    requires st.pos + |x| <= |st.data| && st.data[st.pos..st.pos + |x|] == x
    ensures Read(st, buf) == (st.(pos := st.pos + |x|), x)
  {
  }

  /** The file holds `b` from position `pos` on, byte by byte. */
  predicate At(data: seq<Byte>, pos: nat, b: seq<Byte>)
    decreases |b|
  {
    if b == [] then pos <= |data|
    else pos < |data| && data[pos] == b[0] && At(data, pos + 1, b[1..])
  }

  /** That is the window of the file at `pos` being `b`. */
  lemma {:induction false} AtIsWindow(data: seq<Byte>, pos: nat, b: seq<Byte>)
    ensures At(data, pos, b) <==> pos + |b| <= |data| && data[pos..pos + |b|] == b
    decreases |b|
  {
    if b != [] {
      AtIsWindow(data, pos + 1, b[1..]);
      if pos + |b| <= |data| {
        var w := data[pos..pos + |b|];
        assert w[1..] == data[pos + 1..pos + |b|];
        assert w == [w[0]] + w[1..] && b == [b[0]] + b[1..];
      }
    }
  }

  /** The file holds `a + b` at `pos` exactly when it holds `a` there and
      `b` right after. */
  lemma {:induction false} AtConcat(data: seq<Byte>, pos: nat, a: seq<Byte>, b: seq<Byte>)
    ensures At(data, pos, a + b) <==> At(data, pos, a) && At(data, pos + |a|, b)
    decreases |a|
  {
    if a == [] {
      assert a + b == b;
    } else {
      AtConcat(data, pos + 1, a[1..], b);
      assert (a + b)[0] == a[0] && (a + b)[1..] == a[1..] + b;
    }
  }

  /** A short read keeps what it found in front of the old buffer contents,
      and every later read leaves its buffer as it was. */
  lemma {:induction false} ShortReadSticks(st: IStream, buf: seq<Byte>, later: seq<Byte>)
    requires !st.failed && |buf| > Available(st)
    ensures var (st1, got) := Read(st, buf);
            && st1.failed
            && got[Available(st)..] == buf[Available(st)..]
            && Read(st1, later) == (st1, later)
  {
  }
}

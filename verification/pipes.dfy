/** The pipes of the operating system library as a ring buffer of `size`
    bytes: a read offset, a write offset and a byte count, where the write
    offset is always the read offset advanced by the count, modulo the
    size. Offsets are measured from the start of the buffer, so offset 0
    is the buffer pointer itself. Only the counts and offsets the pipe
    tests observe are modelled, not the bytes. */
module Pipes {

  datatype Pipe = Pipe(size: nat, rd: nat, wr: nat, cnt: nat)

  predicate Valid(p: Pipe) {
    p.size > 0 && p.rd < p.size && p.cnt <= p.size && p.wr == (p.rd + p.cnt) % p.size
  }

  function Min(a: nat, b: nat): (m: nat)
    ensures m <= a && m <= b && (m == a || m == b)
  {
    if a <= b then a else b
  }

  /** A pipe as object initialisation leaves it: empty, both offsets at
      the start of the buffer. */
  function Init(size: nat): (p: Pipe)
    requires size > 0
    ensures Valid(p) && p.size == size
    ensures p.cnt == 0 && p.rd == 0 && p.wr == 0
  {
    Pipe(size, 0, 0, 0)
  }

  /** Writing `n` bytes without waiting: as many as there is room for go
      in, the write offset advances past them with wrap-around, and the
      number written is returned. */
  function WriteImmediate(p: Pipe, n: nat): (res: (Pipe, nat))
    requires Valid(p)
    ensures Valid(res.0) && res.0.size == p.size && res.0.rd == p.rd
    ensures res.1 == Min(n, p.size - p.cnt)
    ensures res.0.cnt == p.cnt + res.1
  {
    var k := Min(n, p.size - p.cnt);
    AdvanceMod(p.rd, p.cnt, k, p.size);
    (p.(wr := (p.wr + k) % p.size, cnt := p.cnt + k), k)
  }

  /** Reading up to `n` bytes without waiting: as many as the pipe holds
      come out, the read offset advances past them with wrap-around, and
      the number read is returned. */
  function ReadImmediate(p: Pipe, n: nat): (res: (Pipe, nat))
    requires Valid(p)
    ensures Valid(res.0) && res.0.size == p.size && res.0.wr == p.wr
    ensures res.1 == Min(n, p.cnt)
    ensures res.0.cnt == p.cnt - res.1
  {
    var k := Min(n, p.cnt);
    AdvanceMod(p.rd, k, p.cnt - k, p.size);
    (p.(rd := (p.rd + k) % p.size, cnt := p.cnt - k), k)
  }

  /** Reading an empty pipe gets nothing and changes nothing. */
  lemma EmptyReadReturnsZero(p: Pipe, n: nat)
    requires Valid(p) && p.cnt == 0
    ensures ReadImmediate(p, n) == (p, 0)
  {
  }

  /** The empty-read test: an immediate read from a freshly initialised
      pipe returns 0, and both offsets stay at the start of the buffer
      with no bytes in the pipe. */
  lemma EmptyReadTest(size: nat)
    requires size > 0
    ensures var r := ReadImmediate(Init(size), size);
            r.1 == 0 && r.0.rd == 0 && r.0.wr == 0 && r.0.cnt == 0
  {
    EmptyReadReturnsZero(Init(size), size);
  }

  /** The two offsets coincide exactly when the pipe is empty or full. */
  lemma {:induction false} OffsetsMeet(p: Pipe)
    requires Valid(p)
    ensures p.rd == p.wr <==> p.cnt == 0 || p.cnt == p.size
  {
    if p.cnt == p.size {
      ModSelf(p.rd, p.size);
    } else if 0 < p.cnt {
      if p.rd + p.cnt < p.size {
        assert p.wr == p.rd + p.cnt;
      } else {
        ModWrap(p.rd + p.cnt, p.size);
        assert p.wr == p.rd + p.cnt - p.size;
      }
    }
  }

  /** Advancing an offset in two steps, each wrapped, is advancing it once
      by the sum, as long as the total stays within one lap. */
  lemma AdvanceMod(rd: nat, c: nat, k: nat, m: nat)
    requires rd < m && c + k <= m
    ensures ((rd + c) % m + k) % m == (rd + c + k) % m
  {
    var a := rd + c;
    if a >= m {
      ModWrap(a, m);
      ModSmall(a - m + k, m);
      ModWrap(a + k, m);
    } else {
      ModSmall(a, m);
      if a + k >= m {
        ModWrap(a + k, m);
      } else {
        ModSmall(a + k, m);
      }
    }
  }

  lemma ModSmall(x: nat, m: nat)
    requires x < m
    ensures x % m == x
  {
  }

  lemma ModSelf(a: nat, m: nat)
    requires a < m
    ensures (a + m) % m == a
  {
  }

  lemma ModWrap(x: nat, m: nat)
    requires m <= x < 2 * m
    ensures x % m == x - m
  {
  }

  /** Writing exactly the free room: every byte goes in, the pipe is full,
      and the write offset wraps round onto the read offset. */
  lemma FillingWrite(p: Pipe)
    requires Valid(p)
    ensures var r := WriteImmediate(p, p.size - p.cnt);
            r.1 == p.size - p.cnt && r.0.cnt == p.size && r.0.wr == r.0.rd && r.0.rd == p.rd
  {
    var r := WriteImmediate(p, p.size - p.cnt);
    OffsetsMeet(r.0);
  }

  /** The fill test: with 4 bytes in a pipe whose read offset is at the
      start of the buffer, writing the remaining size - 4 bytes returns
      size - 4 and leaves both offsets at the start with the pipe full. */
  lemma FillRemainingTest(p: Pipe)
    requires Valid(p) && p.size >= 4 && p.rd == 0 && p.cnt == 4
    ensures var r := WriteImmediate(p, p.size - 4);
            r.1 == p.size - 4 && r.0.rd == 0 && r.0.wr == 0 && r.0.cnt == p.size
  {
    FillingWrite(p);
  }

  /** Bytes are conserved: reading back everything just written into an
      empty pipe returns the same count and leaves the pipe empty, with
      the offsets together again. */
  lemma WriteThenReadAll(p: Pipe, n: nat)
    requires Valid(p) && p.cnt == 0
    ensures var w := WriteImmediate(p, n);
            var r := ReadImmediate(w.0, n);
            r.1 == w.1 && r.0.cnt == 0 && r.0.rd == r.0.wr
  {
    var w := WriteImmediate(p, n);
    var r := ReadImmediate(w.0, n);
    OffsetsMeet(r.0);
  }

  /** Writing more than a fresh pipe holds: only `size` bytes go in, the
      pipe is full, and the write offset wraps round to the start of the
      buffer, onto the read offset. */
  lemma OversizedWrite(size: nat, n: nat)
    requires size > 0 && n >= size
    ensures var r := WriteImmediate(Init(size), n);
            r.1 == size && r.0.cnt == size && r.0.rd == 0 && r.0.wr == 0
  {
    FillingWrite(Init(size));
  }

  /** The oversized write test: a pipe whose buffer holds `pipeSize / 2`
      bytes is given a write of `pipeSize` bytes without waiting; the write
      returns `pipeSize / 2`, both offsets are back at the start of the
      buffer, and the pipe holds `pipeSize / 2` bytes. */
  lemma OversizedWriteTest(pipeSize: nat)
    requires pipeSize >= 2
    ensures var r := WriteImmediate(Init(pipeSize / 2), pipeSize);
            r.1 == pipeSize / 2 && r.0.rd == r.0.wr && r.0.wr == 0 && r.0.cnt == pipeSize / 2
  {
    OversizedWrite(pipeSize / 2, pipeSize);
  }
}

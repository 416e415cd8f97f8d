/** Bytes, and numbers of two and four of them, the lowest first. */
module LittleEndian {

  type Byte = b: int | 0 <= b < 256
  type Bytes = seq<Byte>

  function U16(buf: Bytes, p: nat): (n: nat)
    requires p + 2 <= |buf|
    ensures n < 0x1_0000
  {
    buf[p] as int + 0x100 * buf[p + 1] as int
  }

  function U32(buf: Bytes, p: nat): (n: nat)
    requires p + 4 <= |buf|
    ensures n < 0x1_0000_0000
  {
    U16(buf, p) + 0x1_0000 * U16(buf, p + 2)
  }

  function Le16(n: nat): (b: Bytes)
    requires n < 0x1_0000
    ensures |b| == 2 && U16(b, 0) == n
  {
    [n % 0x100, n / 0x100]
  }

  function Le32(n: nat): (b: Bytes)
    requires n < 0x1_0000_0000
    ensures |b| == 4 && U32(b, 0) == n
  {
    var low, high := Le16(n % 0x1_0000), Le16(n / 0x1_0000);
    [low[0], low[1], high[0], high[1]]
  }

  /** A number read from a part of a buffer is the one in that part. */
  lemma U16At(buf: Bytes, p: nat, at: nat, part: Bytes)
    requires p + |part| <= |buf| && buf[p..p + |part|] == part && at + 2 <= |part|
    ensures U16(buf, p + at) == U16(part, at)
  {
    assert part[at] == buf[p + at] && part[at + 1] == buf[p + at + 1];
  }

  lemma U32At(buf: Bytes, p: nat, at: nat, part: Bytes)
    requires p + |part| <= |buf| && buf[p..p + |part|] == part && at + 4 <= |part|
    ensures U32(buf, p + at) == U32(part, at)
  {
    U16At(buf, p, at, part);
    U16At(buf, p, at + 2, part);
  }
}

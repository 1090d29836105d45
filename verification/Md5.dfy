/**
 The buffering, counting and padding of the MD5 message digest (src/md5.c),
 against RFC 1321 sections 3.1 to 3.5.  The compression step is a parameter: it
 maps four state words and the sixteen words of a block to four state words.

 Words are 32 bits wide and wrap around.  The buffer is read and written in
 little-endian order, as byteReverse arranges.
 */
module Md5 {

  type byte = b: int | 0 <= b < 256
  type word = w: int | 0 <= w < 0x1_0000_0000

  type Compression = (seq<word>, seq<word>) -> seq<word>

  // ----- RFC 1321 -----

  const START: seq<word> := [0x67452301, 0xefcdab89, 0x98badcfe, 0x10325476]

  /** Four bytes, low-order byte first. */
  function EncodeWord(w: word): (s: seq<byte>)
    ensures |s| == 4
  {
    [w % 256, w / 256 % 256, w / 65536 % 256, w / 16777216]
  }

  function Encode(ws: seq<word>): (s: seq<byte>)
    ensures |s| == 4 * |ws|
  {
    if |ws| == 0 then [] else EncodeWord(ws[0]) + Encode(ws[1..])
  }

  function DecodeWord(s: seq<byte>): word
    requires |s| == 4
  {
    s[0] as int + 256 * (s[1] as int) + 65536 * (s[2] as int) + 16777216 * (s[3] as int)
  }

  function Decode(s: seq<byte>): (ws: seq<word>)
    requires |s| % 4 == 0
    ensures |ws| == |s| / 4
  {
    if |s| == 0 then [] else [DecodeWord(s[..4])] + Decode(s[4..])
  }

  function Zeros(n: nat): (s: seq<byte>)
    ensures |s| == n
  {
    seq(n, _ => 0)
  }

  /** The number of bits of a message of n bytes, as 64 bits (section 3.2). */
  function Length64(n: nat): seq<word> {
    var bits := 8 * n % 0x1_0000_0000_0000_0000;
    [bits % 0x1_0000_0000, bits / 0x1_0000_0000]
  }

  /** One bit "1", then zeros up to 448 bits modulo 512 (section 3.1), then the length. */
  function Padding(n: nat): (s: seq<byte>)
    ensures (n + |s|) % 64 == 0
  {
    Mod64(n + 1 + ZeroCount(n % 64) + 8, n / 64 + (n % 64 + 9 + ZeroCount(n % 64)) / 64, 0);
    [0x80] + Zeros(ZeroCount(n % 64)) + Encode(Length64(n))
  }

  function ZeroCount(k: nat): (z: nat)
    requires k < 64
    ensures k + 9 + z == 64 || k + 9 + z == 128
  {
    if k < 56 then 55 - k else 119 - k
  }

  lemma Mod64(a: nat, q: int, r: nat)
    requires a == 64 * q + r && r < 64
    ensures a % 64 == r
  {
  }

  /** Block by block (section 3.4). */
  function Chain(f: Compression, h: seq<word>, s: seq<byte>): seq<word>
    requires |s| % 64 == 0
    decreases |s|
  {
    if |s| == 0 then h else Chain(f, f(h, Decode(s[..64])), s[64..])
  }

  function Digest(f: Compression, msg: seq<byte>): seq<byte> {
    Encode(Chain(f, START, msg + Padding(|msg|)))
  }

  // ----- Properties of the specification -----

  lemma DecodeEncodeWord(w: word)
    ensures DecodeWord(EncodeWord(w)) == w
  {
    assert w / 65536 == w / 256 / 256;
    assert w / 16777216 == w / 65536 / 256;
  }

  /** The four words to start with are these bytes, as section 3.3 of RFC 1321 lists them. */
  lemma StartBytes()
    ensures Encode(START) == [0x01, 0x23, 0x45, 0x67, 0x89, 0xab, 0xcd, 0xef,
                              0xfe, 0xdc, 0xba, 0x98, 0x76, 0x54, 0x32, 0x10]
  {
    var a, b := EncodeWord(START[0]), EncodeWord(START[1]);
    var c, d := EncodeWord(START[2]), EncodeWord(START[3]);
    assert a == [0x01, 0x23, 0x45, 0x67] && b == [0x89, 0xab, 0xcd, 0xef];
    assert c == [0xfe, 0xdc, 0xba, 0x98] && d == [0x76, 0x54, 0x32, 0x10];
    assert Encode(START) == a + (b + (c + (d + [])));
  }

  lemma {:induction false} DecodeEncode(ws: seq<word>)
    ensures Decode(Encode(ws)) == ws
  {
    if |ws| > 0 {
      DecodeEncodeWord(ws[0]);
      DecodeEncode(ws[1..]);
      assert Encode(ws)[..4] == EncodeWord(ws[0]) && Encode(ws)[4..] == Encode(ws[1..]);
    }
  }

  lemma {:induction false} ChainAppend(f: Compression, h: seq<word>, a: seq<byte>, b: seq<byte>)
    requires |a| % 64 == 0 && |b| % 64 == 0
    ensures Chain(f, h, a + b) == Chain(f, Chain(f, h, a), b)
    decreases |a|
  {
    if |a| == 0 {
      assert a + b == b;
    } else {
      assert (a + b)[..64] == a[..64] && (a + b)[64..] == a[64..] + b;
      ChainAppend(f, f(h, Decode(a[..64])), a[64..], b);
    }
  }

  lemma ChainBlock(f: Compression, h: seq<word>, a: seq<byte>, block: seq<byte>)
    requires |a| % 64 == 0 && |block| == 64
    ensures Chain(f, h, a + block) == f(Chain(f, h, a), Decode(block))
  {
    ChainAppend(f, h, a, block);
    assert block[..64] == block && |block[64..]| == 0;
  }

  /** Padding loses nothing: messages of less than 2^61 bytes with equal paddings are equal. */
  lemma PaddingUnambiguous(a: seq<byte>, b: seq<byte>)
    requires |a| < 0x2000_0000_0000_0000 && |b| < 0x2000_0000_0000_0000
    requires a + Padding(|a|) == b + Padding(|b|)
    ensures a == b
  {
    hide Padding, ZeroCount;
    var p := a + Padding(|a|);
    assert p == b + Padding(|b|);
    LengthField(|a|);
    LengthField(|b|);
    assert p[|p| - 8..] == Padding(|a|)[|Padding(|a|)| - 8..];
    assert p[|p| - 8..] == Padding(|b|)[|Padding(|b|)| - 8..];
    assert |a| == |b|;
    assert p[..|a|] == a && p[..|a|] == b;
  }

  /** The last eight bytes of the padding tell the length. */
  lemma LengthField(n: nat)
    requires n < 0x2000_0000_0000_0000
    ensures |Padding(n)| >= 8
    ensures var l := Decode(Padding(n)[|Padding(n)| - 8..]);
            |l| == 2 && l[0] as int + 0x1_0000_0000 * (l[1] as int) == 8 * n
  {
    var l := Encode(Length64(n));
    assert Padding(n)[|Padding(n)| - 8..] == l;
    DecodeEncode(Length64(n));
  }

  // ----- The counter -----

  /** The two 32-bit words hold the bit count modulo 2^64. */
  predicate Counts(lo: word, hi: word, n: nat) {
    lo + 0x1_0000_0000 * hi == 8 * n % 0x1_0000_0000_0000_0000
  }

  lemma CountUp(lo: word, hi: word, n: nat, len: nat)
    requires Counts(lo, hi, n) && len < 0x1_0000_0000
    ensures var lo' := (lo + len * 8 % 0x1_0000_0000) % 0x1_0000_0000;
            var hi' := if lo' < lo then (hi + 1) % 0x1_0000_0000 else hi;
            Counts(lo', (hi' + len / 0x2000_0000) % 0x1_0000_0000, n + len)
  {
    var x, y := len * 8 % 0x1_0000_0000, len / 0x2000_0000;
    assert len * 8 == x + 0x1_0000_0000 * y;
    var carry := if lo + x >= 0x1_0000_0000 then 1 else 0;
    CarryOut(lo, x);
    SumMod(hi, carry, y);
    Mod64Bits(8 * (n + len), 8 * n / 0x1_0000_0000_0000_0000 + (hi + carry + y) / 0x1_0000_0000,
              (lo + x) % 0x1_0000_0000 + 0x1_0000_0000 * ((hi + carry + y) % 0x1_0000_0000));
  }

  lemma CarryOut(lo: word, x: word)
    ensures var lo' := (lo + x) % 0x1_0000_0000;
            if lo' < lo then lo as int + x == lo' + 0x1_0000_0000 else lo as int + x == lo'
  {
  }

  lemma Mod64Bits(a: nat, q: nat, r: nat)
    requires a == 0x1_0000_0000_0000_0000 * q + r && r < 0x1_0000_0000_0000_0000
    ensures a % 0x1_0000_0000_0000_0000 == r
  {
  }

  lemma SumMod(hi: word, carry: int, y: nat)
    requires 0 <= carry <= 1
    ensures ((hi + carry) % 0x1_0000_0000 + y) % 0x1_0000_0000 == (hi + carry + y) % 0x1_0000_0000
  {
  }

  lemma BytesBuffered(lo: word, hi: word, n: nat)
    requires Counts(lo, hi, n)
    ensures lo / 8 % 64 == n % 64
    ensures [lo, hi] == Length64(n)
  {
    var q := 8 * n / 0x1_0000_0000_0000_0000;
    var bits := 8 * n % 0x1_0000_0000_0000_0000;
    assert lo as int == 8 * (n - 0x2000_0000_0000_0000 * q - 0x2000_0000 * hi);
    assert lo / 8 == n - 0x2000_0000_0000_0000 * q - 0x2000_0000 * hi;
    Mod64(lo / 8, n / 64 - 0x80_0000_0000_0000 * q - 0x80_0000 * hi, n % 64);
    assert bits / 0x1_0000_0000 == hi && bits % 0x1_0000_0000 == lo;
  }

  // ----- The implementation -----

  class MD5Context {
    const f: Compression
    const data: array<byte>      // the field `in` of the original
    var buf: seq<word>
    var lo: word                 // bits[0]
    var hi: word                 // bits[1]
    ghost var msg: seq<byte>     // everything hashed so far
    ghost var done: seq<byte>    // as much of it as has been compressed

    ghost predicate Valid()
      reads this, data
    {
      && data.Length == 64
      && Counts(lo, hi, |msg|)
      && |done| % 64 == 0 && 0 <= |msg| - |done| < 64
      && msg == done + data[..|msg| - |done|]
      && buf == Chain(f, START, done)
    }

    /** MD5Init */
    constructor (f: Compression)
      ensures Valid() && msg == [] && this.f == f && fresh(data)
    {
      this.f := f;
      data := new byte[64](_ => 0);
      buf := START;
      lo := 0;
      hi := 0;
      msg := [];
      done := [];
    }

    method Memcpy(at: nat, src: seq<byte>)
      requires at + |src| <= data.Length
      modifies data
      ensures data[..at + |src|] == old(data[..at]) + src
    {
      forall i | 0 <= i < |src| {
        data[at + i] := src[i];
      }
    }

    /** MD5Transform on the buffer. */
    method Transform()
      requires data.Length == 64
      modifies this`buf
      ensures buf == f(old(buf), Decode(data[..]))
    {
      buf := f(buf, Decode(data[..]));
    }

    /** Complete the buffer from position `at` and transform it. */
    method FillAndTransform(at: nat, src: seq<byte>, ghost done: seq<byte>)
      requires data.Length == 64 == at + |src| && |done| % 64 == 0 && buf == Chain(f, START, done)
      modifies this`buf, data
      ensures buf == Chain(f, START, done + (old(data[..at]) + src))
      ensures |done + (old(data[..at]) + src)| % 64 == 0
    {
      hide Chain, Decode;
      Memcpy(at, src);
      Transform();
      assert data[..] == old(data[..at]) + src;
      ChainBlock(f, START, done, data[..]);
    }

    /** Add `len` bytes to the bit count; return the number of bytes buffered before. */
    method CountBits(len: nat, ghost n: nat) returns (t: nat)
      requires Counts(lo, hi, n) && len < 0x1_0000_0000
      modifies this`lo, this`hi
      ensures Counts(lo, hi, n + len) && t == n % 64
    {
      hide Counts;
      CountUp(lo, hi, n, len);
      BytesBuffered(lo, hi, n);
      t := lo;
      lo := (t + len * 8 % 0x1_0000_0000) % 0x1_0000_0000;
      if lo < t { hi := (hi + 1) % 0x1_0000_0000; }
      hi := (hi + len / 0x2000_0000) % 0x1_0000_0000;
      t := t / 8 % 64;
    }

    method Update(chunk: seq<byte>)
      requires Valid() && |chunk| < 0x1_0000_0000
      modifies this, data
      ensures Valid() && msg == old(msg) + chunk
    {
      hide Chain, Decode, Counts;
      ghost var k := |msg| - |done|;
      ghost var head, pending := done, data[..k];
      Mod64(|msg|, |done| / 64, k);
      var len := |chunk|;
      var t := CountBits(len, |msg|);
      msg := msg + chunk;

      var p := 0;
      if t != 0 {
        var full := LeadingBytes(t, chunk);
        if !full {
          assert msg == head + (pending + chunk);
          return;
        }
        p := 64 - t;
      }
      assert msg == done + chunk[p..] by {
        assert chunk == chunk[..p] + chunk[p..];
        assert p > 0 ==> done == head + (pending + chunk[..p]);
      }
      WholeBlocks(chunk, p);
    }

    /** Complete a partly filled buffer, or, failing that, add the whole chunk to it. */
    method LeadingBytes(t: nat, chunk: seq<byte>) returns (full: bool)
      requires data.Length == 64 && 0 < t < 64 && |done| % 64 == 0 && buf == Chain(f, START, done)
      modifies this`buf, this`done, data
      ensures full <==> |chunk| >= 64 - t
      ensures |done| % 64 == 0 && buf == Chain(f, START, done)
      ensures full ==> done == old(done) + (old(data[..t]) + chunk[..64 - t])
      ensures !full ==> done == old(done) && data[..t + |chunk|] == old(data[..t]) + chunk
    {
      hide Chain, Decode;
      var room := 64 - t;
      if |chunk| < room {
        Memcpy(t, chunk);
        return false;
      }
      FillAndTransform(t, chunk[..room], done);
      done := done + (old(data[..t]) + chunk[..room]);
      return true;
    }

    /** Compress whole blocks of the chunk from position `p0`, and buffer the remaining bytes. */
    method WholeBlocks(chunk: seq<byte>, p0: nat)
      requires data.Length == 64 && p0 <= |chunk| && |done| % 64 == 0 && buf == Chain(f, START, done)
      requires msg == done + chunk[p0..] && Counts(lo, hi, |msg|)
      modifies this`buf, this`done, data
      ensures Valid()
    {
      hide Chain, Decode, Counts;
      var p := p0;
      while |chunk| - p >= 64
        invariant p <= |chunk| && |done| % 64 == 0 && buf == Chain(f, START, done)
        invariant msg == done + chunk[p..]
      {
        FillAndTransform(0, chunk[p..p + 64], done);
        assert data[..0] + chunk[p..p + 64] == chunk[p..p + 64];
        assert chunk[p..] == chunk[p..p + 64] + chunk[p + 64..];
        done := done + chunk[p..p + 64];
        p := p + 64;
      }
      Memcpy(0, chunk[p..]);
    }

    /** Fill data[at..at + n] with zeros. */
    method Memset(at: nat, n: nat)
      requires at + n <= data.Length
      modifies data
      ensures data[..at + n] == old(data[..at]) + Zeros(n)
    {
      forall i | 0 <= i < n {
        data[at + i] := 0;
      }
    }

    method Final() returns (digest: seq<byte>)
      requires Valid()
      modifies this, data
      ensures digest == Digest(f, old(msg))
      ensures buf == [0, 0, 0, 0] && lo == hi == 0 && data[..] == Zeros(64)
    {
      LastBlocks();
      digest := Encode(buf);
      buf, lo, hi, msg, done := [0, 0, 0, 0], 0, 0, [], [];
      Memset(0, 64);
    }

    /** Pad, append the length and transform what is left. */
    method LastBlocks()
      requires Valid()
      modifies this`buf, data
      ensures buf == Chain(f, START, msg + Padding(|msg|))
    {
      hide Chain, Decode, Counts, Padding, Length64, ZeroCount;
      BytesBuffered(lo, hi, |msg|);
      ghost var k := |msg| - |done|;
      Mod64(|msg|, |done| / 64, k);
      var count := lo / 8 % 64;
      data[count] := 0x80;
      ghost var tail := old(data[..k]) + [0x80];
      assert data[..k + 1] == tail;
      ghost var blocks := PadTo56(count + 1, 64 - 1 - count, tail, done);
      ghost var l := Encode(Length64(|msg|));
      assert blocks + (data[..56] + l) == (blocks + data[..56]) + l;
      PaddingLayout(msg, done, old(data[..k]));
      FillAndTransform(56, Encode([lo, hi]), blocks);
    }

    /** Zeros up to byte 56 of a block: of this one, or if fewer than 8 bytes are left, of the next. */
    method PadTo56(p: nat, count: nat, ghost tail: seq<byte>, ghost blocks0: seq<byte>)
      returns (ghost blocks: seq<byte>)
      requires data.Length == 64 == p + count && data[..p] == tail
      requires |blocks0| % 64 == 0 && buf == Chain(f, START, blocks0)
      modifies this`buf, data
      ensures |blocks| % 64 == 0 && buf == Chain(f, START, blocks)
      ensures blocks + data[..56] == blocks0 + (tail + Zeros(if count < 8 then count + 56 else count - 8))
    {
      hide Chain, Decode;
      blocks := blocks0;
      if count < 8 {
        Memset(p, count);
        assert data[..] == tail + Zeros(count);
        Transform();
        ChainBlock(f, START, blocks, data[..]);
        blocks := blocks + (tail + Zeros(count));
        Memset(0, 56);
        assert Zeros(count) + Zeros(56) == Zeros(count + 56);
      } else {
        Memset(p, count - 8);
        assert data[..56] == tail + Zeros(count - 8);
      }
    }
  }

  lemma PaddingLayout(msg: seq<byte>, done: seq<byte>, pending: seq<byte>)
    requires msg == done + pending && |msg| % 64 == |pending|
    ensures var count := 63 - |pending|;
            done + (pending + [0x80] + Zeros(if count < 8 then count + 56 else count - 8)) + Encode(Length64(|msg|))
            == msg + Padding(|msg|)
  {
  }

  function Concat(chunks: seq<seq<byte>>): seq<byte> {
    if |chunks| == 0 then [] else Concat(chunks[..|chunks| - 1]) + chunks[|chunks| - 1]
  }

  /** However a message is cut into chunks, its digest is that of the whole. */
  method DigestOfChunks(f: Compression, chunks: seq<seq<byte>>) returns (digest: seq<byte>)
    requires forall c | c in chunks :: |c| < 0x1_0000_0000
    ensures digest == Digest(f, Concat(chunks))
  {
    var ctx := new MD5Context(f);
    for i := 0 to |chunks|
      invariant ctx.Valid() && ctx.f == f && fresh(ctx) && fresh(ctx.data)
      invariant ctx.msg == Concat(chunks[..i])
    {
      ctx.Update(chunks[i]);
      assert chunks[..i + 1][..i] == chunks[..i];
    }
    assert chunks[..|chunks|] == chunks;
    digest := ctx.Final();
  }
}

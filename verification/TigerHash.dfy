/** The streaming hash: blocks are compressed as they fill up, and the end is padded. */
module TigerHashes {

  type Byte = x: int | 0 <= x < 256

  type Bytes = seq<Byte>

  /** A word of 64 bits. */
  type Word = x: int | 0 <= x < WORD

  const WORD: int := 0x1_0000_0000_0000_0000
  const BLOCK_SIZE: int := 64

  datatype Digest = Digest(a: Word, b: Word, c: Word)

  /** The compression of one block into the state; its rounds are not part of this model. */
  type Compression = (Bytes, Digest) -> Digest

  const INITIAL := Digest(0x0123456789ABCDEF, 0xFEDCBA9876543210, 0xF096A5B4C3B2E187)

  // ----- the hash of a message -------------------------------------------------------------------------

  function Zeros(n: nat): (r: Bytes)
    ensures |r| == n && forall i :: 0 <= i < n ==> r[i] == 0
  {
    seq(n, _ => 0)
  }

  /** A number in so many bytes, the lowest first. */
  function LittleEndian(x: nat, n: nat): (r: Bytes)
    ensures |r| == n
  {
    if n == 0 then [] else [x % 256] + LittleEndian(x / 256, n - 1)
  }

  /** How many zeros bring the message and the byte after it to 56 bytes over a multiple of the block size. */
  function ZerosFor(length: nat): (n: nat)
    ensures n < BLOCK_SIZE && (length + 1 + n) % BLOCK_SIZE == BLOCK_SIZE - 8
  {
    (BLOCK_SIZE - 9 - length) % BLOCK_SIZE
  }

  /** The message, the byte 1, zeros, and the length in bits. */
  function Pad(m: Bytes): Bytes { m + [1] + Zeros(ZerosFor(|m|)) + LittleEndian(Bits(|m|), 8) }

  /** The length in bits, in a word. */
  function Bits(length: nat): Word { 8 * length % WORD }

  lemma PadFits(m: Bytes)
    ensures |Pad(m)| == |m| + 1 + ZerosFor(|m|) + 8 && |Pad(m)| % BLOCK_SIZE == 0
  {
    var z := ZerosFor(|m|);
    hide ZerosFor, Bits, LittleEndian;
    Rounded(|m| + 1 + z);
  }

  lemma Rounded(x: nat)
    requires x % BLOCK_SIZE == BLOCK_SIZE - 8
    ensures (x + 8) % BLOCK_SIZE == 0
  {}

  function Blocks(compress: Compression, h: Digest, m: Bytes): Digest
    requires |m| % BLOCK_SIZE == 0
    decreases |m|
  {
    if m == [] then h else Blocks(compress, compress(m[..BLOCK_SIZE], h), m[BLOCK_SIZE..])
  }

  /** The hash of a message as a whole. */
  function Hash(compress: Compression, m: Bytes): Digest {
    PadFits(m);
    Blocks(compress, INITIAL, Pad(m))
  }

  lemma {:induction false} BlocksJoin(compress: Compression, h: Digest, a: Bytes, b: Bytes)
    requires |a| % BLOCK_SIZE == 0 && |b| % BLOCK_SIZE == 0
    ensures Blocks(compress, h, a + b) == Blocks(compress, Blocks(compress, h, a), b)
    decreases |a|
  {
    if a == [] {
      assert a + b == b;
    } else {
      assert (a + b)[..BLOCK_SIZE] == a[..BLOCK_SIZE] && (a + b)[BLOCK_SIZE..] == a[BLOCK_SIZE..] + b;
      BlocksJoin(compress, compress(a[..BLOCK_SIZE], h), a[BLOCK_SIZE..], b);
    }
  }

  lemma OneBlock(compress: Compression, h: Digest, block: Bytes)
    requires |block| == BLOCK_SIZE
    ensures Blocks(compress, h, block) == compress(block, h)
  {
    assert block[..BLOCK_SIZE] == block && block[BLOCK_SIZE..] == [];
  }

  /** One more block. */
  lemma BlocksMore(compress: Compression, h: Digest, a: Bytes, block: Bytes)
    requires |a| % BLOCK_SIZE == 0 && |block| == BLOCK_SIZE
    ensures |a + block| % BLOCK_SIZE == 0 && Blocks(compress, h, a + block) == compress(block, Blocks(compress, h, a))
  {
    BlocksJoin(compress, h, a, block);
    OneBlock(compress, Blocks(compress, h, a), block);
  }

  // ----- padding loses nothing -------------------------------------------------------------------------

  lemma {:induction false} LittleEndianOnce(x: nat, y: nat, n: nat)
    requires LittleEndian(x, n) == LittleEndian(y, n)
    ensures x % Power(n) == y % Power(n)
  {
    if n > 0 {
      var a, b := LittleEndian(x, n), LittleEndian(y, n);
      assert a[0] == b[0] && a[1..] == b[1..];
      LittleEndianOnce(x / 256, y / 256, n - 1);
      Split(x, Power(n - 1));
      Split(y, Power(n - 1));
    }
  }

  function Power(n: nat): (r: nat)
    ensures r > 0
  {
    if n == 0 then 1 else 256 * Power(n - 1)
  }

  lemma Split(x: nat, p: nat)
    requires p > 0
    ensures x % (256 * p) == x % 256 + 256 * (x / 256 % p)
  {
    var q, r := x / 256 / p, x / 256 % p;
    assert x / 256 == q * p + r;
    assert x == 256 * (q * p + r) + x % 256;
    assert x == q * (256 * p) + (256 * r + x % 256);
    assert 256 * r + x % 256 < 256 * p;
    Remainder(x, 256 * p, q, 256 * r + x % 256);
  }

  lemma Remainder(x: nat, d: nat, q: nat, r: nat)
    requires x == q * d + r && r < d
    ensures x % d == r
  {
    var k := x / d;
    Multiple(k - q, d);
    assert (k - q) * d == r - x % d;
  }

  lemma Multiple(k: int, d: int)
    requires d > 0
    ensures (k >= 1 ==> k * d >= d) && (k <= -1 ==> k * d <= -d)
  {
    if k >= 1 {
      assert (k - 1) * d >= 0;
    } else if k <= -1 {
      assert (-k - 1) * d >= 0;
    }
    assert k * d == d + (k - 1) * d && k * d == (k + 1) * d - d;
  }

  lemma PowerOfWord()
    ensures Power(8) == WORD
  {
    assert Power(4) == 0x1_0000_0000;
    assert Power(8) == 256 * (256 * (256 * (256 * Power(4))));
  }

  /** No two messages are padded to the same blocks. */
  lemma DivDiv(x: nat, p: nat)
    requires p > 0
    ensures x / 256 / p == x / (256 * p)
  {
    var q, r := x / 256 / p, x / 256 % p;
    assert x / 256 == q * p + r;
    assert x == 256 * (q * p + r) + x % 256;
    assert x == q * (256 * p) + (256 * r + x % 256);
    assert 256 * r + x % 256 < 256 * p;
    Quotient(x, 256 * p, q, 256 * r + x % 256);
  }

  lemma Quotient(x: nat, d: nat, q: nat, r: nat)
    requires x == q * d + r && r < d
    ensures x / d == q
  {
    var k := x / d;
    Multiple(k - q, d);
    assert (k - q) * d == r - x % d;
  }

  /** The bytes of a number, the lowest first. */
  lemma {:induction false} ByteOfNumber(x: nat, n: nat, i: nat)
    requires i < n
    ensures Power(i) > 0 && LittleEndian(x, n)[i] == x / Power(i) % 256
  {
    if i > 0 {
      ByteOfNumber(x / 256, n - 1, i - 1);
      DivDiv(x, Power(i - 1));
    }
  }

  /** Every byte of the padded message: the message, a byte 1, zeros, and at the end of the last block the number of
    * bits as a word whose lowest byte comes first. No block more is used than needed. */
  lemma PaddedByte(m: Bytes, i: nat)
    requires i < |Pad(m)|
    ensures |Pad(m)| % 64 == 0 && |m| + 9 <= |Pad(m)| < |m| + 9 + 64
    ensures Power(if i < |Pad(m)| - 8 then 0 else i - (|Pad(m)| - 8)) > 0
    ensures Pad(m)[i] ==
      if i < |m| then m[i]
      else if i == |m| then 1
      else if i < |Pad(m)| - 8 then 0
      else 8 * |m| % 0x1_0000_0000_0000_0000 / Power(i - (|Pad(m)| - 8)) % 256
  {
    PadFits(m);
    hide LittleEndian, ZerosFor;
    if i >= |Pad(m)| - 8 {
      ByteOfNumber(Bits(|m|), 8, i - (|Pad(m)| - 8));
    }
  }

  lemma PadOnce(m: Bytes, n: Bytes)
    requires Pad(m) == Pad(n)
    ensures m == n
  {
    var p, x, y := Pad(m), Bits(|m|), Bits(|n|);
    PadFits(m);
    PadFits(n);
    hide Bits, LittleEndian, ZerosFor;
    assert p[|p| - 8..] == LittleEndian(x, 8) && p[|p| - 8..] == LittleEndian(y, 8);
    LittleEndianOnce(x, y, 8);
    PowerOfWord();
    SameWord(x, y);
    SameBits(|m|, |n|);
    assert p[..|m|] == m && p[..|n|] == n;
  }

  lemma SameWord(x: Word, y: Word)
    requires x % WORD == y % WORD
    ensures x == y
  {}

  lemma SameBits(x: nat, y: nat)
    requires Bits(x) == Bits(y) && x - y < BLOCK_SIZE && y - x < BLOCK_SIZE
    ensures x == y
  {}

  // ----- the class -------------------------------------------------------------------------------------

  /** The part of a message that fills blocks. */
  function Full(length: nat): (n: nat)
    ensures n <= length < n + BLOCK_SIZE && n % BLOCK_SIZE == 0
  {
    length - length % BLOCK_SIZE
  }

  lemma FullSame(x: nat, y: nat)
    requires x - Full(x) + y < BLOCK_SIZE
    ensures Full(x + y) == Full(x)
  {}

  lemma FullMore(x: nat, y: nat)
    requires x - Full(x) + y == BLOCK_SIZE
    ensures Full(x + y) == x + y && (x + y) % BLOCK_SIZE == 0
  {}

  /** The state after a message: what fills blocks has been compressed, and the rest is in the block. */
  ghost predicate Holds(compress: Compression, block: Bytes, res: Digest, pos: Word, m: Bytes) {
    && |block| == BLOCK_SIZE
    && pos == |m| % WORD
    && block[..|m| - Full(|m|)] == m[Full(|m|)..]
    && res == Blocks(compress, INITIAL, m[..Full(|m|)])
  }

  /** Data for which there is room. */
  lemma HoldsMore(compress: Compression, block: Bytes, res: Digest, pos: Word, m: Bytes, data: Bytes, block1: Bytes)
    requires Holds(compress, block, res, pos, m) && |m| - Full(|m|) + |data| < BLOCK_SIZE == |block1|
    requires block1[..|m| - Full(|m|) + |data|] == block[..|m| - Full(|m|)] + data
    ensures Holds(compress, block1, res, (pos + |data|) % WORD, m + data)
  {
    AddInWord(|m|, |data|);
    FullSame(|m|, |data|);
    hide Blocks, Full;
    var full, m1 := Full(|m|), m + data;
    assert m1[..full] == m[..full];
    assert m1[full..] == m[full..] + data;
  }

  /** Data that fills the block. */
  lemma HoldsBlock(compress: Compression, block: Bytes, res: Digest, pos: Word, m: Bytes, data: Bytes, block1: Bytes,
                   rest: Bytes)
    requires Holds(compress, block, res, pos, m) && |m| - Full(|m|) + |data| == BLOCK_SIZE == |block1| == |rest|
    requires block1 == block[..|m| - Full(|m|)] + data
    ensures Holds(compress, rest, compress(block1, res), (pos + |data|) % WORD, m + data)
    ensures |m + data| % BLOCK_SIZE == 0
  {
    AddInWord(|m|, |data|);
    FullMore(|m|, |data|);
    var full, m1 := Full(|m|), m + data;
    BlocksMore(compress, INITIAL, m[..full], block1);
    hide Blocks, Full;
    assert m1 == m[..full] + block1;
    assert m1[..|m1|] == m1;
  }

  class TigerHash {
    const compress: Compression
    const tmp: array<Byte>
    var res: Digest
    var pos: Word
    /** All the data so far. */
    ghost var message: Bytes

    ghost predicate Valid()
      reads this, tmp
    {
      tmp.Length == BLOCK_SIZE && Holds(compress, tmp[..], res, pos, message)
    }

    constructor (compress: Compression)
      ensures Valid() && message == [] && fresh(tmp) && this.compress == compress
    {
      this.compress := compress;
      tmp := new Byte[BLOCK_SIZE](_ => 0);
      pos, res, message := 0, INITIAL, [];
    }

    /** `memcpy` into the block. */
    method Copy(at: nat, data: Bytes)
      requires at + |data| <= tmp.Length
      modifies tmp
      ensures tmp[..at + |data|] == old(tmp[..at]) + data && tmp[at + |data|..] == old(tmp[at + |data|..])
    {
      forall i | 0 <= i < |data| {
        tmp[at + i] := data[i];
      }
    }

    /** `update`: the block is filled first, then whole blocks are compressed, and the rest is kept. */
    method Update(data: Bytes)
      requires Valid()
      modifies this`res, this`pos, this`message, tmp
      ensures Valid() && message == old(message) + data
    {
      hide Holds, Full;
      var at := FillFirst(data);
      at := CompressBlocks(data, at);
      assert message == old(message) + data[..at];
      KeepRest(data[at..]);
      assert data[..at] + data[at..] == data;
    }

    /** Data goes into a block that has been begun, as far as it fits. */
    method FillFirst(data: Bytes) returns (at: nat)
      requires Valid()
      modifies this`res, this`pos, this`message, tmp
      ensures Valid() && at <= |data| && message == old(message) + data[..at]
      ensures (at == |data| || |message| % BLOCK_SIZE == 0)
    {
      HoldsPos(compress, tmp[..], res, pos, message);
      hide Holds, Full;
      var tmppos := pos % BLOCK_SIZE;
      if tmppos == 0 {
        return 0;
      }
      at := if |data| <= BLOCK_SIZE - tmppos then |data| else BLOCK_SIZE - tmppos;
      Fill(tmppos, data[..at]);
    }

    /** The loop of `update`. */
    method CompressBlocks(data: Bytes, start: nat) returns (at: nat)
      requires Valid() && start <= |data| && (start == |data| || |message| % BLOCK_SIZE == 0)
      modifies this`res, this`pos, this`message
      ensures Valid() && start <= at <= |data| && message == old(message) + data[start..at] && |data| - at < BLOCK_SIZE
      ensures at == |data| || |message| % BLOCK_SIZE == 0
    {
      hide Holds, Full;
      at := start;
      while |data| - at >= BLOCK_SIZE
        invariant start <= at <= |data| && Valid() && message == old(message) + data[start..at]
        invariant at == |data| || |message| % BLOCK_SIZE == 0
      {
        CompressBlock(data[at..at + BLOCK_SIZE]);
        assert data[start..at] + data[at..at + BLOCK_SIZE] == data[start..at + BLOCK_SIZE];
        at := at + BLOCK_SIZE;
      }
    }

    /** The first part of `update`: what fits into a block that has been begun. */
    method Fill(tmppos: nat, data: Bytes)
      requires Valid() && tmppos == |message| - Full(|message|) && tmppos + |data| <= BLOCK_SIZE
      modifies this`res, this`pos, this`message, tmp
      ensures Valid() && message == old(message) + data
      ensures tmppos + |data| == BLOCK_SIZE ==> |message| % BLOCK_SIZE == 0
    {
      hide Holds, Full;
      ghost var block, p, h := tmp[..], pos, res;
      Copy(tmppos, data);
      pos := (pos + |data|) % WORD;
      if tmppos + |data| == BLOCK_SIZE {
        assert tmp[..] == block[..tmppos] + data;
        HoldsBlock(compress, block, h, p, message, data, tmp[..], tmp[..]);
        res := compress(tmp[..], res);
      } else {
        HoldsMore(compress, block, h, p, message, data, tmp[..]);
      }
      message := message + data;
    }

    /** A whole block is compressed from where it is. */
    method CompressBlock(block: Bytes)
      requires Valid() && |message| % BLOCK_SIZE == 0 && |block| == BLOCK_SIZE
      modifies this`res, this`pos, this`message
      ensures Valid() && message == old(message) + block && |message| % BLOCK_SIZE == 0
    {
      assert Full(|message|) == |message|;
      hide Holds, Full;
      HoldsBlock(compress, tmp[..], res, pos, message, block, block, tmp[..]);
      res := compress(block, res);
      pos := (pos + BLOCK_SIZE) % WORD;
      message := message + block;
    }

    /** The last part of `update`: what does not fill a block is kept in one that is empty. */
    method KeepRest(rest: Bytes)
      requires Valid() && |rest| < BLOCK_SIZE && (rest == [] || |message| % BLOCK_SIZE == 0)
      modifies this`pos, this`message, tmp
      ensures Valid() && message == old(message) + rest
    {
      ghost var block, p := tmp[..], pos;
      Copy(0, rest);
      pos := (pos + |rest|) % WORD;
      if rest == [] {
        assert tmp[..] == block;
      }
      hide Holds;
      HoldsMore(compress, block, res, p, message, rest, tmp[..]);
      message := message + rest;
    }

    /** `finalize`: the hash of the whole message, however it came. */
    method Finalize() returns (r: Digest)
      requires Valid()
      modifies this`res, tmp
      ensures r == res == Hash(compress, message)
    {
      hide Blocks, LittleEndian;
      var tmppos := pos % BLOCK_SIZE;
      ghost var m, full := message, Full(|message|);
      InWord(|m|);
      PadFits(m);
      ghost var rest := m[full..];
      Copy(tmppos, [1]);
      tmppos := tmppos + 1;
      var bits := pos * 8 % WORD;
      BitsInWord(|m|);
      if tmppos > BLOCK_SIZE - 8 {
        Copy(tmppos, Zeros(BLOCK_SIZE - tmppos));
        assert tmp[..] == rest + [1] + Zeros(BLOCK_SIZE - tmppos);
        res := compress(tmp[..], res);
        ghost var first := tmp[..];
        Copy(0, Zeros(BLOCK_SIZE));
        assert tmp[..] == Zeros(BLOCK_SIZE);
        assert tmp[..BLOCK_SIZE - 8] == Zeros(BLOCK_SIZE - 8);
        Copy(BLOCK_SIZE - 8, LittleEndian(bits, 8));
        assert tmp[..BLOCK_SIZE] == Zeros(BLOCK_SIZE - 8) + LittleEndian(bits, 8);
        assert tmp[..] == tmp[..BLOCK_SIZE];
        res := compress(tmp[..], res);
        LongPad(m);
        BlocksMore(compress, INITIAL, m[..full], first);
        BlocksMore(compress, INITIAL, m[..full] + first, tmp[..]);
      } else {
        Copy(tmppos, Zeros(BLOCK_SIZE - tmppos - 8));
        Copy(BLOCK_SIZE - 8, LittleEndian(bits, 8));
        assert tmp[..] == rest + [1] + Zeros(BLOCK_SIZE - tmppos - 8) + LittleEndian(bits, 8);
        res := compress(tmp[..], res);
        ShortPad(m);
        BlocksMore(compress, INITIAL, m[..full], tmp[..]);
      }
      r := res;
    }
  }

  /** The place in the block can be told from the position, although that wraps around. */
  lemma HoldsPos(compress: Compression, block: Bytes, res: Digest, pos: Word, m: Bytes)
    requires Holds(compress, block, res, pos, m)
    ensures pos % BLOCK_SIZE == |m| - Full(|m|) == |m| % BLOCK_SIZE
  {
    InWord(|m|);
  }

  lemma InWord(x: nat)
    ensures x % WORD % BLOCK_SIZE == x % BLOCK_SIZE && x - Full(x) == x % BLOCK_SIZE
  {}

  lemma AddInWord(x: nat, y: nat)
    ensures (x % WORD + y) % WORD == (x + y) % WORD
  {}

  lemma BitsInWord(x: nat)
    ensures x % WORD * 8 % WORD == Bits(x)
  {
    var q, r := x / WORD, x % WORD;
    assert 8 * x == 8 * q * WORD + 8 * r;
    SameRemainder(8 * r, 8 * q);
  }

  lemma SameRemainder(x: nat, q: nat)
    ensures (q * WORD + x) % WORD == x % WORD
  {
    var k := x / WORD;
    Remainder(q * WORD + x, WORD, q + k, x % WORD);
  }

  /** The end of a message when the length fits into its last block. */
  lemma ShortPad(m: Bytes)
    requires |m| % BLOCK_SIZE < BLOCK_SIZE - 8
    ensures var full := Full(|m|);
      Pad(m) == m[..full] + (m[full..] + [1] + Zeros(BLOCK_SIZE - 9 - |m| % BLOCK_SIZE) + LittleEndian(Bits(|m|), 8))
  {
    var full := Full(|m|);
    assert ZerosFor(|m|) == BLOCK_SIZE - 9 - |m| % BLOCK_SIZE;
    hide ZerosFor, LittleEndian, Full, Bits;
    assert m == m[..full] + m[full..];
  }

  /** The end of a message when the length takes a block more. */
  lemma LongPad(m: Bytes)
    requires |m| % BLOCK_SIZE >= BLOCK_SIZE - 8
    ensures var full := Full(|m|);
      Pad(m) == m[..full] + (m[full..] + [1] + Zeros(BLOCK_SIZE - 1 - |m| % BLOCK_SIZE)) + (Zeros(BLOCK_SIZE - 8) + LittleEndian(Bits(|m|), 8))
  {
    var full := Full(|m|);
    assert ZerosFor(|m|) == 2 * BLOCK_SIZE - 9 - |m| % BLOCK_SIZE;
    hide ZerosFor, LittleEndian, Full, Bits;
    assert m == m[..full] + m[full..];
    assert Zeros(ZerosFor(|m|)) == Zeros(BLOCK_SIZE - 1 - |m| % BLOCK_SIZE) + Zeros(BLOCK_SIZE - 8);
  }

  function Flatten(chunks: seq<Bytes>): Bytes {
    if chunks == [] then [] else chunks[0] + Flatten(chunks[1..])
  }

  lemma AllToCome(chunks: seq<Bytes>)
    ensures [] + Flatten(chunks[0..]) == Flatten(chunks)
  {
    assert chunks[0..] == chunks;
  }

  lemma NextChunk(done: Bytes, chunks: seq<Bytes>, i: nat)
    requires i < |chunks|
    ensures done + Flatten(chunks[i..]) == done + chunks[i] + Flatten(chunks[i + 1..])
  {
    assert chunks[i..][1..] == chunks[i + 1..];
  }

  lemma NoneToCome(done: Bytes, chunks: seq<Bytes>)
    ensures done + Flatten(chunks[|chunks|..]) == done
  {}

  /** Any way to cut a message gives the hash of the message. */
  method HashOf(compress: Compression, chunks: seq<Bytes>) returns (r: Digest)
    ensures r == Hash(compress, Flatten(chunks))
  {
    hide Hash, Flatten;
    var hash := new TigerHash(compress);
    AllToCome(chunks);
    for i := 0 to |chunks|
      invariant hash.Valid() && fresh(hash) && fresh(hash.tmp) && hash.compress == compress
      invariant hash.message + Flatten(chunks[i..]) == Flatten(chunks)
    {
      NextChunk(hash.message, chunks, i);
      hash.Update(chunks[i]);
    }
    NoneToCome(hash.message, chunks);
    r := hash.Finalize();
  }
}

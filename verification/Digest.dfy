/** What md5.c and sha.c compute: a compression function folded over the padded message. The
    compression function is a parameter. */
module Digest {

  import opened Seqs

  const TWO_32: int := 0x1_0000_0000
  const TWO_64: int := 0x1_0000_0000_0000_0000

  /** The state after all blocks of a message whose length is a multiple of 64. */
  function Fold<S>(compress: (S, seq<byte>) -> S, s: S, m: seq<byte>): S
    decreases |m|
  {
    if |m| < 64 then s else Fold(compress, compress(s, m[..64]), m[64..])
  }

  lemma {:induction false} FoldSplit<S>(compress: (S, seq<byte>) -> S, s: S, a: seq<byte>, b: seq<byte>)
    requires |a| % 64 == 0
    ensures Fold(compress, s, a + b) == Fold(compress, Fold(compress, s, a), b)
    decreases |a|
  {
    if |a| < 64 {
      assert a == [] && a + b == b;
    } else {
      assert (a + b)[..64] == a[..64] && (a + b)[64..] == a[64..] + b;
      FoldSplit(compress, compress(s, a[..64]), a[64..], b);
    }
  }

  /** The compression is applied to the blocks one after the other. */
  lemma FoldBlock<S>(compress: (S, seq<byte>) -> S, s: S, a: seq<byte>, block: seq<byte>)
    requires |a| % 64 == 0 && |block| == 64
    ensures Fold(compress, s, []) == s && Fold(compress, s, block) == compress(s, block)
    ensures Fold(compress, s, a + block) == compress(Fold(compress, s, a), block)
  {
    FoldSplit(compress, s, a, block);
    assert block[..64] == block && block[64..] == [];
  }

  /** The zero bytes after the first padding byte: up to 56 modulo 64. */
  function Zeros(n: nat): seq<byte> {
    var k: nat := if n % 64 < 56 then 55 - n % 64 else 119 - n % 64;
    seq(k, _ => 0)
  }

  /** A message, a one bit, zero bits and the eight bytes of the length (sections 3.1 and 3.2
      of RFC 1321; section 5.1.1 of FIPS 180-4). */
  function Padded(m: seq<byte>, length: seq<byte>): seq<byte> {
    m + ([0x80] + Zeros(|m|)) + length
  }

  lemma PaddedLength(m: seq<byte>, length: seq<byte>)
    requires |length| == 8
    ensures |Padded(m, length)| % 64 == 0 && |m| + 9 <= |Padded(m, length)| <= |m| + 72
  {
  }

  /** The message, the byte 0x80, as few zero bytes as fill whole blocks, and the length. */
  lemma PaddingMeaning(m: seq<byte>, length: seq<byte>)
    requires |length| == 8
    ensures var p := Padded(m, length);
            && |p| % 64 == 0 && |m| + 9 <= |p| < |m| + 9 + 64
            && p[..|m|] == m && p[|m|] == 0x80 && p[|p| - 8..] == length
            && forall i :: |m| < i < |p| - 8 ==> p[i] == 0
  {
    PaddedLength(m, length);
  }

  /** A context after `fed`: the state of the whole blocks, and the rest in the buffer. */
  ghost predicate Absorbed<S>(compress: (S, seq<byte>) -> S, init: S, state: S, buffer: seq<byte>, fed: seq<byte>) {
    var whole := |fed| - |fed| % 64;
    && |buffer| == 64
    && state == Fold(compress, init, fed[..whole])
    && buffer[..|fed| % 64] == fed[whole..]
  }

  lemma NothingFed<S>(compress: (S, seq<byte>) -> S, init: S, buffer: seq<byte>)
    requires |buffer| == 64
    ensures Absorbed(compress, init, init, buffer, [])
  {
  }

  /** At a block boundary the state is that of the message. */
  lemma AtBoundary<S>(compress: (S, seq<byte>) -> S, init: S, state: S, buffer: seq<byte>, fed: seq<byte>)
    requires Absorbed(compress, init, state, buffer, fed) && |fed| % 64 == 0
    ensures state == Fold(compress, init, fed)
  {
    assert fed[..|fed|] == fed;
  }

  function Concat(pieces: seq<seq<byte>>): seq<byte> {
    if pieces == [] then [] else Concat(pieces[..|pieces| - 1]) + pieces[|pieces| - 1]
  }

  lemma ConcatNext(pieces: seq<seq<byte>>, i: nat)
    requires i < |pieces|
    ensures Concat(pieces[..i + 1]) == Concat(pieces[..i]) + pieces[i]
  {
    assert pieces[..i + 1][..i] == pieces[..i];
  }

  // ---------- lengths as bytes ----------

  function Low(w: nat): byte { w % 0x100 }

  /** Four bytes, least significant first, as MD5Encode writes a word. */
  function LittleEndian(w: nat): (bs: seq<byte>)
    ensures |bs| == 4
  {
    [Low(w), Low(w / 0x100), Low(w / 0x1_0000), Low(w / 0x100_0000)]
  }

  lemma LittleEndianValue(w: nat)
    requires w < TWO_32
    ensures var b: seq<int> := LittleEndian(w); b[0] + 0x100 * b[1] + 0x1_0000 * b[2] + 0x100_0000 * b[3] == w
  {
    assert w / 0x100 == w / 0x1_0000 * 0x100 + w / 0x100 % 0x100;
    assert w / 0x1_0000 == w / 0x100_0000 * 0x100 + w / 0x1_0000 % 0x100;
  }

  /** `k` bytes, most significant first, as the SHA functions write the length. */
  function BigEndian(n: nat, k: nat): (bs: seq<byte>)
    ensures |bs| == k
    decreases k
  {
    if k == 0 then [] else BigEndian(n / 0x100, k - 1) + [Low(n)]
  }

  function BigEndianValue(bs: seq<byte>): nat {
    if bs == [] then 0 else 0x100 * BigEndianValue(bs[..|bs| - 1]) + bs[|bs| - 1]
  }

  function Power(k: nat): nat { if k == 0 then 1 else 0x100 * Power(k - 1) }

  lemma {:induction false} BigEndianRoundTrip(n: nat, k: nat)
    requires n < Power(k)
    ensures BigEndianValue(BigEndian(n, k)) == n
    decreases k
  {
    if k > 0 {
      BigEndianRoundTrip(n / 0x100, k - 1);
      assert BigEndian(n, k)[..k - 1] == BigEndian(n / 0x100, k - 1);
    }
  }

  /** The first of eight such bytes is the most significant one. */
  lemma BigEndianBytes(n: nat)
    requires n < TWO_64
    ensures var b: seq<int> := BigEndian(n, 8);
            (((((((b[0] * 0x100 + b[1]) * 0x100 + b[2]) * 0x100 + b[3]) * 0x100 + b[4]) * 0x100 + b[5]) * 0x100 + b[6])
             * 0x100 + b[7]) == n
  {
    var b: seq<int> := BigEndian(n, 8);
    assert Power(8) == TWO_64;
    BigEndianRoundTrip(n, 8);
    EightBytes(BigEndian(n, 8));
  }

  lemma EightBytes(b: seq<byte>)
    requires |b| == 8
    ensures var c: seq<int> := b;
            BigEndianValue(b) ==
            (((((((c[0] * 0x100 + c[1]) * 0x100 + c[2]) * 0x100 + c[3]) * 0x100 + c[4]) * 0x100 + c[5]) * 0x100 + c[6])
             * 0x100 + c[7])
  {
    FourMore(b[..4]);
    assert b[..7][..6] == b[..6] && b[..6][..5] == b[..5] && b[..5][..4] == b[..4];
    assert BigEndianValue(b[..5]) == 0x100 * BigEndianValue(b[..4]) + b[4];
    assert BigEndianValue(b[..6]) == 0x100 * BigEndianValue(b[..5]) + b[5];
    assert BigEndianValue(b[..7]) == 0x100 * BigEndianValue(b[..6]) + b[6];
  }

  lemma FourMore(b: seq<byte>)
    requires |b| == 4
    ensures var c: seq<int> := b; BigEndianValue(b) == ((c[0] * 0x100 + c[1]) * 0x100 + c[2]) * 0x100 + c[3]
  {
    assert b[..3][..2] == b[..2] && b[..2][..1] == b[..1] && b[..1][..0] == [];
    assert BigEndianValue(b[..1]) == 0x100 * BigEndianValue([]) + b[0];
    assert BigEndianValue(b[..2]) == 0x100 * BigEndianValue(b[..1]) + b[1];
    assert BigEndianValue(b[..3]) == 0x100 * BigEndianValue(b[..2]) + b[2];
  }

  /** Bits of a message, modulo 2^64. */
  function Bits(m: seq<byte>): nat { 8 * |m| % TWO_64 }

  /** memcpy into a buffer */
  method CopyInto(buffer: array<byte>, at: nat, data: seq<byte>)
    requires at + |data| <= buffer.Length
    modifies buffer
    ensures buffer[..at] == old(buffer[..at]) && buffer[at..at + |data|] == data
    ensures buffer[at + |data|..] == old(buffer[at + |data|..])
  {
    forall i | 0 <= i < |data| {
      buffer[at + i] := data[i];
    }
  }
}

/** md5.c: MD5Init, MD5Update and MD5Final. */
module Md5 {
  import opened Digest
  import opened Seqs

  /** The bit count of RFC 1321 (section 3.2), in two words. */
  function Counted(fed: seq<byte>): (nat, nat) { (8 * |fed| % TWO_32, 8 * |fed| / TWO_32 % TWO_32) }

  lemma NothingCounted()
    ensures Counted([]) == (0, 0)
  {
  }

  /** The last whole block of `l` bytes fed after `n` ends below 2^32 - 64. */
  predicate Fits(n: nat, l: nat) { l < TWO_32 && l - (n + l) % 64 <= TWO_32 - 65 }

  /** In the loop of MD5Update `i + 64` is a 32-bit sum: the test is right at every block just
      if the length fits. */
  lemma LoopTest(n: nat, l: nat)
    requires 64 - n % 64 <= l < TWO_32
    ensures Fits(n, l) <==>
            forall i: nat :: 64 - n % 64 <= i <= l && AtBlock(n, i) ==> ((i + 64) % TWO_32 <= l <==> i + 64 <= l)
  {
    if Fits(n, l) {
      forall i: nat | 64 - n % 64 <= i <= l && AtBlock(n, i) ensures (i + 64) % TWO_32 <= l <==> i + 64 <= l {
        NoWrap(n, l, i);
      }
    } else {
      var end := l - (n + l) % 64;
      EndOfBlocks(n, l);
      assert (end + 64) % TWO_32 == end + 64 - TWO_32;
    }
  }

  lemma EndOfBlocks(n: nat, l: nat)
    requires 64 - n % 64 <= l
    ensures var end := l - (n + l) % 64; 64 - n % 64 <= end <= l < end + 64 && AtBlock(n, end)
  {
  }

  /** The longest input there is makes the loop read on at the end of its last block. */
  lemma LongestInput()
    ensures var l, i := TWO_32 - 1, TWO_32 - 64;
            !Fits(0, l) && i == l - l % 64 && (i + 64) % TWO_32 <= l < i + 64
  {
  }

  class Md5<S> {
    const transform: (S, seq<byte>) -> S
    const init: S
    var state: S
    var count0: nat
    var count1: nat
    const buffer: array<byte>
    /** The message so far. */
    ghost var fed: seq<byte>

    ghost predicate Valid()
      reads this, buffer
    {
      Absorbed(transform, init, state, buffer[..], fed) && (count0, count1) == Counted(fed)
    }

    /** MD5Init */
    constructor (transform: (S, seq<byte>) -> S, init: S)
      ensures Valid() && fed == [] && fresh(buffer) && this.transform == transform && this.init == init
    {
      this.transform, this.init, state, count0, count1, fed := transform, init, init, 0, 0, [];
      buffer := new byte[64];
      new;
      hide Absorbed, Fold, Counted;
      NothingFed(transform, init, buffer[..]);
      NothingCounted();
    }

    /** MD5Update, for a length with which its loop ends (`LoopTest`). */
    method Update(input: seq<byte>)
      requires Valid() && Fits(|fed|, |input|)
      modifies this, buffer
      ensures Valid() && fed == old(fed) + input
    {
      hide Absorbed;
      var inputLen := |input|;
      IndexIs(fed);
      var index := count0 / 8 % 64;
      var partLen := 64 - index;
      CountUp(fed, input);
      count0 := (count0 + inputLen * 8 % TWO_32) % TWO_32;
      if count0 < inputLen * 8 % TWO_32 {
        count1 := (count1 + 1) % TWO_32;
      }
      count1 := (count1 + inputLen / 0x2000_0000) % TWO_32;
      Absorb(input, index, partLen);
      fed := fed + input;
    }

    /** The rest of MD5Update. */
    method Absorb(input: seq<byte>, index0: nat, partLen: nat)
      requires Absorbed(transform, init, state, buffer[..], fed) && index0 == |fed| % 64 && partLen == 64 - index0
      requires Fits(|fed|, |input|)
      modifies this`state, buffer
      ensures Absorbed(transform, init, state, buffer[..], fed + input)
    {
      hide Fold;
      var index, i: nat := index0, 0;
      if |input| >= partLen {
        i := Blocks(input, index, partLen);
        index := 0;
        LastPart(fed, input, i);
      } else {
        PartBlock(fed, input);
      }
      CopyInto(buffer, index, input[i..]);
    }

    /** The block that begins in the buffer. */
    method First(input: seq<byte>, index: nat, partLen: nat)
      requires Absorbed(transform, init, state, buffer[..], fed) && index == |fed| % 64 && partLen == 64 - index
      requires partLen <= |input|
      modifies this`state, buffer
      ensures state == Fold(transform, init, (fed + input)[..|fed| + partLen])
    {
      FirstBlock(transform, init, state, buffer[..], fed, input);
      assert |buffer[..]| == 64;
      hide Absorbed, Fold;
      ghost var before := buffer[..index];
      CopyInto(buffer, index, input[..partLen]);
      assert buffer[..] == before + input[..partLen];
      state := transform(state, buffer[..]);
    }

    /** The loop of MD5Update, and the block before it. */
    method Blocks(input: seq<byte>, index: nat, partLen: nat) returns (i: nat)
      requires Absorbed(transform, init, state, buffer[..], fed) && index == |fed| % 64 && partLen == 64 - index
      requires partLen <= |input| && Fits(|fed|, |input|)
      modifies this`state, buffer
      ensures i <= |input| < i + 64 && (|fed| + i) % 64 == 0
      ensures state == Fold(transform, init, (fed + input)[..|fed| + i])
    {
      hide Absorbed, Fold, AtBlock;
      First(input, index, partLen);
      i := partLen;
      Aligned(|fed|);
      while (i + 64) % TWO_32 <= |input|
        invariant partLen <= i <= |input| && AtBlock(|fed|, i)
        invariant state == Fold(transform, init, (fed + input)[..|fed| + i])
        decreases |input| - i
      {
        NoWrap(|fed|, |input|, i);
        NextBlock(transform, init, fed, input, i);
        state := transform(state, input[i..i + 64]);
        i := i + 64;
      }
      NoWrap(|fed|, |input|, i);
      Boundary(|fed|, i);
    }

    /** MD5Final: the state is the compression folded over the padded message. */
    method Final() returns (final: S)
      requires Valid()
      modifies this, buffer
      ensures final == Fold(transform, init, Padded(old(fed), LittleEndian64(Bits(old(fed)))))
    {
      ghost var m := fed;
      IndexIs(fed);
      CountedBits(fed);
      var index := count0 / 8 % 64;
      var padLen := if index < 56 then 56 - index else 120 - index;
      var bits := LittleEndian(count0) + LittleEndian(count1);
      var padding := [0x80] + seq(63, _ => 0);
      hide Absorbed, Fold;
      assert padding[..padLen] == [0x80] + Zeros(|m|);
      Update(padding[..padLen]);
      Update(bits);
      PaddedLength(m, bits);
      AtBoundary(transform, init, state, buffer[..], fed);
      final := state;
    }
  }

  /** However a message is cut into updates, the outcome is that of the whole message. */
  method InPieces<S>(transform: (S, seq<byte>) -> S, init: S, pieces: seq<seq<byte>>) returns (final: S)
    requires forall k :: 0 <= k < |pieces| ==> Fits(|Concat(pieces[..k])|, |pieces[k]|)
    ensures final == Fold(transform, init, Padded(Concat(pieces), LittleEndian64(Bits(Concat(pieces)))))
  {
    hide Fold, Absorbed;
    var context := new Md5(transform, init);
    for i := 0 to |pieces|
      invariant context.Valid() && context.fed == Concat(pieces[..i]) && fresh(context) && fresh(context.buffer)
      invariant context.transform == transform && context.init == init
    {
      ConcatNext(pieces, i);
      context.Update(pieces[i]);
    }
    assert pieces[..|pieces|] == pieces;
    final := context.Final();
  }

  function LittleEndian64(n: nat): (bs: seq<byte>)
    ensures |bs| == 8
  {
    LittleEndian(n % TWO_32) + LittleEndian(n / TWO_32)
  }

  /** The eight bytes have the value of the count, the low-order word first. */
  lemma LittleEndian64Value(n: nat)
    requires n < TWO_64
    ensures var b: seq<int> := LittleEndian64(n);
            b[0] + 0x100 * b[1] + 0x1_0000 * b[2] + 0x100_0000 * b[3]
            + TWO_32 * (b[4] + 0x100 * b[5] + 0x1_0000 * b[6] + 0x100_0000 * b[7]) == n
  {
    LittleEndianValue(n % TWO_32);
    LittleEndianValue(n / TWO_32);
  }

  lemma CountedBits(m: seq<byte>)
    ensures Counted(m) == (Bits(m) % TWO_32, Bits(m) / TWO_32)
  {
    var n := 8 * |m|;
    assert n == n / TWO_64 * TWO_64 + n % TWO_64;
    var q, r := n / TWO_64, n % TWO_64;
    assert n / TWO_32 == q * TWO_32 + r / TWO_32;
  }

  lemma IndexIs(fed: seq<byte>)
    ensures Counted(fed).0 / 8 % 64 == |fed| % 64
  {
    var n := |fed|;
    Shifted(n);
    LowBytes(n);
    var m := n % 0x2000_0000;
    assert n == n / 0x2000_0000 * 0x2000_0000 + m;
    assert n == n / 0x2000_0000 * 0x80_0000 * 64 + m;
    SumMod64(n / 0x2000_0000 * 0x80_0000, m);
  }

  lemma LowBytes(n: nat)
    ensures 8 * n % TWO_32 == 8 * (n % 0x2000_0000)
  {
    assert 8 * n == n / 0x2000_0000 * TWO_32 + 8 * (n % 0x2000_0000);
    Words(n / 0x2000_0000, 8 * (n % 0x2000_0000));
  }

  lemma SumMod64(a: nat, b: nat)
    ensures (a * 64 + b) % 64 == b % 64
  {
  }

  /** The carry from the low word to the high one. */
  lemma CountUp(fed: seq<byte>, input: seq<byte>)
    requires |input| < TWO_32
    ensures var (c0, c1) := Counted(fed);
            var a := |input| * 8 % TWO_32;
            var low := (c0 + a) % TWO_32;
            var carried := if low < a then (c1 + 1) % TWO_32 else c1;
            (low, (carried + |input| / 0x2000_0000) % TWO_32) == Counted(fed + input)
  {
    var n := 8 * |fed|;
    Shifted(|input|);
    assert 8 * |fed + input| == n + 8 * |input|;
    Carry(n / TWO_32, n % TWO_32, |input| / 0x2000_0000, |input| * 8 % TWO_32);
  }

  lemma Shifted(l: nat)
    ensures 8 * l == l / 0x2000_0000 * TWO_32 + l * 8 % TWO_32
  {
    assert l == l / 0x2000_0000 * 0x2000_0000 + l % 0x2000_0000;
    Words(l / 0x2000_0000, 8 * (l % 0x2000_0000));
  }

  /** Two-word addition. */
  lemma Carry(q: nat, c: nat, r: nat, a: nat)
    requires c < TWO_32 && a < TWO_32
    ensures var low := (c + a) % TWO_32;
            var carried := if low < a then (q % TWO_32 + 1) % TWO_32 else q % TWO_32;
            var n := q * TWO_32 + c + (r * TWO_32 + a);
            low == n % TWO_32 && (carried + r) % TWO_32 == n / TWO_32 % TWO_32
  {
    if c + a < TWO_32 {
      Words(q + r, c + a);
      SumMod(q, r);
    } else {
      Words(q + r + 1, c + a - TWO_32);
      SumMod(q + 1, r);
      SumMod(q, 1);
    }
  }

  lemma Words(q: nat, c: nat)
    requires c < TWO_32
    ensures (q * TWO_32 + c) / TWO_32 == q && (q * TWO_32 + c) % TWO_32 == c
  {
  }

  lemma SumMod(a: nat, b: nat)
    ensures (a % TWO_32 + b) % TWO_32 == (a + b) % TWO_32
  {
  }

  /** The first block that Update compresses is the buffered bytes and the next ones. */
  lemma FirstBlock<S>(transform: (S, seq<byte>) -> S, init: S, state: S, buffer: seq<byte>, fed: seq<byte>,
                      input: seq<byte>)
    requires Absorbed(transform, init, state, buffer, fed) && |input| >= 64 - |fed| % 64
    ensures var n := 64 - |fed| % 64;
            transform(state, buffer[..|fed| % 64] + input[..n]) == Fold(transform, init, (fed + input)[..|fed| + n])
  {
    var n, whole := 64 - |fed| % 64, |fed| - |fed| % 64;
    FoldBlock(transform, init, fed[..whole], fed[whole..] + input[..n]);
    assert (fed + input)[..|fed| + n] == fed[..whole] + (fed[whole..] + input[..n]);
  }

  lemma NextBlock<S>(transform: (S, seq<byte>) -> S, init: S, fed: seq<byte>, input: seq<byte>, i: nat)
    requires i + 64 <= |input| && AtBlock(|fed|, i)
    ensures AtBlock(|fed|, i + 64)
    ensures transform(Fold(transform, init, (fed + input)[..|fed| + i]), input[i..i + 64]) ==
            Fold(transform, init, (fed + input)[..|fed| + i + 64])
  {
    var all := fed + input;
    assert all[..|fed| + i + 64] == all[..|fed| + i] + input[i..i + 64];
    FoldBlock(transform, init, all[..|fed| + i], input[i..i + 64]);
  }

  /** With `i` bytes of the input taken, the message is at a block boundary. */
  predicate AtBlock(n: nat, i: nat) { (n + i) % 64 == 0 }

  lemma Boundary(n: nat, i: nat)
    ensures AtBlock(n, i) <==> (n + i) % 64 == 0
  {
  }

  lemma Aligned(n: nat)
    ensures AtBlock(n, 64 - n % 64)
  {
  }

  /** The sum in the loop test does not wrap. */
  lemma NoWrap(n: nat, l: nat, i: nat)
    requires i <= l && Fits(n, l) && AtBlock(n, i)
    ensures (i + 64) % TWO_32 == i + 64
  {
    assert (n + l) % 64 == (l - i) % 64;
  }

  lemma LastPart(fed: seq<byte>, input: seq<byte>, i: nat)
    requires i <= |input| < i + 64 && (|fed| + i) % 64 == 0
    ensures var all := fed + input;
            && |all| % 64 == |input| - i && |all| - |all| % 64 == |fed| + i && all[|fed| + i..] == input[i..]
  {
  }

  lemma PartBlock(fed: seq<byte>, input: seq<byte>)
    requires |input| < 64 - |fed| % 64
    ensures var whole, all := |fed| - |fed| % 64, fed + input;
            && |all| % 64 == |fed| % 64 + |input|
            && all[..whole] == fed[..whole] && all[whole..] == fed[whole..] + input
  {
  }
}

/** sha.c: the init, update and final functions, which are the same for SHA-1 and SHA-256. */
module Sha {
  import opened Digest
  import opened Seqs

  class Sha<S> {
    const transform: (S, seq<byte>) -> S
    const init: S
    var state: S
    var datalen: nat
    var bitlen: nat
    const data: array<byte>
    /** The message so far. */
    ghost var fed: seq<byte>

    ghost predicate Valid()
      reads this, data
    {
      && Absorbed(transform, init, state, data[..], fed) && datalen == |fed| % 64
      && bitlen == 8 * (|fed| - |fed| % 64) % TWO_64
    }

    /** sha1_init, sha256_init */
    constructor (transform: (S, seq<byte>) -> S, init: S)
      ensures Valid() && fed == [] && fresh(data) && this.transform == transform && this.init == init
    {
      this.transform, this.init, state, datalen, bitlen, fed := transform, init, init, 0, 0, [];
      data := new byte[64];
      new;
      hide Absorbed, Fold;
      NothingFed(transform, init, data[..]);
    }

    /** The body of the loop of the update functions. */
    method Feed(b: byte)
      requires Valid()
      modifies this, data
      ensures Valid() && fed == old(fed) + [b]
    {
      ghost var before := data[..];
      OneByte(transform, init, state, before, fed, b);
      OneMore(|fed|);
      hide Absorbed, Fold;
      data[datalen] := b;
      datalen := datalen + 1;
      assert data[..] == before[|fed| % 64 := b];
      if datalen == 64 {
        state := transform(state, data[..]);
        bitlen := (bitlen + 512) % TWO_64;
        datalen := 0;
      }
      fed := fed + [b];
    }

    /** sha1_update, sha256_update */
    method Update(bytes: seq<byte>)
      requires Valid() && |bytes| < TWO_32
      modifies this, data
      ensures Valid() && fed == old(fed) + bytes
    {
      for i := 0 to |bytes|
        invariant Valid() && fed == old(fed) + bytes[..i]
      {
        Feed(bytes[i]);
      }
      assert bytes[..|bytes|] == bytes;
    }

    /** The padding that the final functions add: the buffer ends with zero bytes up to 56. */
    method Pad()
      requires Valid()
      modifies this, data
      ensures datalen == old(datalen) && bitlen == old(bitlen) && fed == old(fed)
      ensures var m := fed + ([0x80] + Zeros(|fed|)); |m| % 64 == 56 && Absorbed(transform, init, state, data[..], m)
    {
      ghost var before, buffer0 := data[..datalen], data[..];
      data[datalen] := 0x80;
      var i := datalen + 1;
      var end := if datalen < 56 then 56 else 64;
      while i < end
        invariant datalen < i <= end && data[..datalen] == before
        invariant fed == old(fed) && datalen == old(datalen) && bitlen == old(bitlen) && state == old(state)
        invariant data[datalen] == 0x80 && forall j :: datalen < j < i ==> data[j] == 0
      {
        data[i] := 0;
        i := i + 1;
      }
      assert data[..end] == before + ([0x80] + ZeroBytes(end - datalen - 1));
      if datalen >= 56 {
        ghost var block, state0 := data[..], state;
        assert data[..64] == block;
        hide Absorbed, Fold;
        state := transform(state, data[..]);
        forall j | 0 <= j < 56 {
          data[j] := 0;
        }
        assert data[..56] == ZeroBytes(56);
        LongTail(transform, init, state0, buffer0, fed, block, data[..]);
      } else {
        ShortTail(transform, init, state, buffer0, fed, data[..]);
      }
    }

    /** sha1_final, sha256_final: the state is the compression folded over the padded message. */
    method Final() returns (final: S)
      requires Valid()
      modifies this, data
      ensures final == Fold(transform, init, Padded(old(fed), BigEndian(Bits(old(fed)), 8)))
    {
      BitCount(|fed|);
      ghost var m := fed + ([0x80] + Zeros(|fed|));
      hide Absorbed, Fold;
      Pad();
      Unfolded(transform, init, state, data[..], m);
      bitlen := (bitlen + datalen * 8) % TWO_64;
      ghost var tail := data[..56];
      PutLength();
      LastBlock(transform, init, state, data[..], m, BigEndian(bitlen, 8));
      state := transform(state, data[..]);
      final := state;
    }

    /** The length, most significant byte first. */
    method PutLength()
      requires data.Length == 64
      modifies data
      ensures data[..56] == old(data[..56]) && data[56..] == BigEndian(bitlen, 8)
    {
      var i, rest := 64, bitlen;
      hide BigEndian, Low;
      while i > 56
        invariant 56 <= i <= 64 && data[..56] == old(data[..56])
        invariant BigEndian(rest, i - 56) + data[i..] == BigEndian(bitlen, 8)
      {
        ghost var after := data[i..];
        NextByte(rest, i - 56);
        i := i - 1;
        data[i] := Low(rest);
        rest := rest / 0x100;
        assert data[i..] == [data[i]] + after;
      }
      assert BigEndian(rest, 0) + data[56..] == data[56..];
    }
  }

  /** However a message is cut into updates, the outcome is that of the whole message. */
  method InPieces<S>(transform: (S, seq<byte>) -> S, init: S, pieces: seq<seq<byte>>) returns (final: S)
    requires forall p :: p in pieces ==> |p| < TWO_32
    ensures final == Fold(transform, init, Padded(Concat(pieces), BigEndian(Bits(Concat(pieces)), 8)))
  {
    hide Fold, Absorbed;
    var context := new Sha(transform, init);
    for i := 0 to |pieces|
      invariant context.Valid() && context.fed == Concat(pieces[..i]) && fresh(context) && fresh(context.data)
      invariant context.transform == transform && context.init == init
    {
      ConcatNext(pieces, i);
      context.Update(pieces[i]);
    }
    assert pieces[..|pieces|] == pieces;
    final := context.Final();
  }

  lemma NextByte(n: nat, k: nat)
    requires k > 0
    ensures BigEndian(n, k) == BigEndian(n / 0x100, k - 1) + [Low(n)]
  {
  }

  function ZeroBytes(k: nat): seq<byte> { seq(k, _ => 0) }

  lemma BitCount(n: nat)
    ensures (8 * (n - n % 64) % TWO_64 + n % 64 * 8) % TWO_64 == 8 * n % TWO_64
  {
    assert 8 * n == 8 * (n - n % 64) + n % 64 * 8;
    ModAdd(8 * (n - n % 64), n % 64 * 8);
  }

  lemma ModAdd(a: nat, b: nat)
    ensures (a % TWO_64 + b) % TWO_64 == (a + b) % TWO_64
  {
  }

  lemma OneMore(n: nat)
    ensures (n + 1) % 64 == if n % 64 == 63 then 0 else n % 64 + 1
    ensures n % 64 == 63 ==> (8 * (n - n % 64) % TWO_64 + 512) % TWO_64 == 8 * (n + 1) % TWO_64
  {
    assert n % 64 == 63 ==> 8 * (n - n % 64) + 512 == 8 * (n + 1);
  }

  lemma OneByte<S>(transform: (S, seq<byte>) -> S, init: S, state: S, buffer: seq<byte>, fed: seq<byte>, b: byte)
    requires Absorbed(transform, init, state, buffer, fed)
    ensures var d := |fed| % 64;
            var after := buffer[d := b];
            Absorbed(transform, init, if d == 63 then transform(state, after) else state, after, fed + [b])
  {
    var d, whole, all := |fed| % 64, |fed| - |fed| % 64, fed + [b];
    var after := buffer[d := b];
    OneMore(|fed|);
    assert all[..whole] == fed[..whole];
    assert after[..d + 1] == buffer[..d] + [b] == all[whole..];
    if d == 63 {
      FoldBlock(transform, init, fed[..whole], after);
      assert fed[..whole] + after == all;
      assert all[..|all|] == all && all[|all|..] == [];
    }
  }

  lemma ShortTail<S>(transform: (S, seq<byte>) -> S, init: S, state: S, buffer: seq<byte>, fed: seq<byte>, data: seq<byte>)
    requires Absorbed(transform, init, state, buffer, fed) && |fed| % 64 < 56 && |data| == 64
    requires data[..56] == buffer[..|fed| % 64] + ([0x80] + ZeroBytes(55 - |fed| % 64))
    ensures var m := fed + ([0x80] + Zeros(|fed|)); |m| % 64 == 56 && Absorbed(transform, init, state, data, m)
  {
    var m, whole := fed + ([0x80] + Zeros(|fed|)), |fed| - |fed| % 64;
    assert m[..whole] == fed[..whole] && m[whole..] == fed[whole..] + ([0x80] + Zeros(|fed|));
  }

  lemma LongTail<S>(transform: (S, seq<byte>) -> S, init: S, state: S, buffer: seq<byte>, fed: seq<byte>,
                    block: seq<byte>, data: seq<byte>)
    requires Absorbed(transform, init, state, buffer, fed) && |fed| % 64 >= 56 && |block| == |data| == 64
    requires block == buffer[..|fed| % 64] + ([0x80] + ZeroBytes(63 - |fed| % 64)) && data[..56] == ZeroBytes(56)
    ensures var m := fed + ([0x80] + Zeros(|fed|));
            |m| % 64 == 56 && Absorbed(transform, init, transform(state, block), data, m)
  {
    var m, whole := fed + ([0x80] + Zeros(|fed|)), |fed| - |fed| % 64;
    assert Zeros(|fed|) == ZeroBytes(63 - |fed| % 64) + ZeroBytes(56);
    assert m == fed[..whole] + block + ZeroBytes(56);
    FoldBlock(transform, init, fed[..whole], block);
    assert m[..whole + 64] == fed[..whole] + block && m[whole + 64..] == ZeroBytes(56);
  }

  lemma Unfolded<S>(transform: (S, seq<byte>) -> S, init: S, state: S, buffer: seq<byte>, m: seq<byte>)
    requires Absorbed(transform, init, state, buffer, m) && |m| % 64 == 56
    ensures |buffer| == 64 && state == Fold(transform, init, m[..|m| - 56]) && buffer[..56] == m[|m| - 56..]
  {
  }

  lemma LastBlock<S>(transform: (S, seq<byte>) -> S, init: S, state: S, data: seq<byte>, m: seq<byte>, length: seq<byte>)
    requires |m| % 64 == 56 && |length| == 8 && |data| == 64 && data[56..] == length
    requires state == Fold(transform, init, m[..|m| - 56]) && data[..56] == m[|m| - 56..]
    ensures transform(state, data) == Fold(transform, init, m + length)
  {
    FoldBlock(transform, init, m[..|m| - 56], data);
    assert m + length == m[..|m| - 56] + data;
  }
}

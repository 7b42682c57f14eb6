/** aes.c: the cipher once more, byte by byte as section 5.1 of FIPS 197 has it, on blocks in the
    order in which they are stored. */
module AesReference {
  import opened AesField
  import opened AesTables
  import opened Aes

  function KeyAdded(x: State, w: seq<bv8>, r: nat): State
    requires |w| >= 16 * r + 16
  {
    seq(16, n requires 0 <= n < 16 => x[n] ^ w[16 * r + n])
  }

  function Substituted(x: State): State { seq(16, n requires 0 <= n < 16 => SBox(x[n])) }

  /** Byte `i` of column `j` comes from column `j + i`. */
  function Shifted(x: State): State { seq(16, n requires 0 <= n < 16 => x[(n + 4 * (n % 4)) % 16]) }

  /** The byte that is `k` after byte `n` in its column, cyclically. */
  function Further(x: State, n: nat, k: nat): bv8
    requires n < 16 && k < 4
  {
    x[n / 4 * 4 + (n + k) % 4]
  }

  function Mixed(x: State): State {
    seq(16, n requires 0 <= n < 16 =>
      MixedByte(Further(x, n, 0), Further(x, n, 1), Further(x, n, 2), Further(x, n, 3)))
  }

  function MixedByte(a: bv8, b: bv8, c: bv8, d: bv8): bv8 { Twice(a) ^ (Twice(b) ^ b) ^ c ^ d }

  /** {02} times a byte. */
  function Twice(a: bv8): bv8 { if a & 0x80 == 0 then a << 1 else (a << 1) ^ 0x1b }

  function Rounds(x: State, w: seq<bv8>, r: nat): State
    requires |w| >= 16 * r + 16
  {
    if r == 0 then KeyAdded(x, w, 0) else KeyAdded(Mixed(Shifted(Substituted(Rounds(x, w, r - 1)))), w, r)
  }

  function Reference(x: State, w: seq<bv8>, nr: nat): State
    requires RoundKeys(w, nr)
  {
    KeyAdded(Shifted(Substituted(Rounds(x, w, nr - 1))), w, nr)
  }

  // ---------- the cipher of aes.c is that one ----------

  /** The state that holds a block has its words as columns. */
  lemma InColumns(x: State, j: nat)
    requires j < 4
    ensures Column(Transposed(x), j) == WordAt(x, j)
  {
    Columns(WordAt(x, 0), WordAt(x, 1), WordAt(x, 2), WordAt(x, 3));
    hide Column, WordAt, FromColumns;
  }

  lemma HoldsBlock(s: State, x: State)
    requires forall j: nat :: j < 4 ==> Column(s, j) == WordAt(x, j)
    ensures s == Transposed(x)
  {
    assert Column(s, 0) == WordAt(x, 0) && Column(s, 1) == WordAt(x, 1);
    assert Column(s, 2) == WordAt(x, 2) && Column(s, 3) == WordAt(x, 3);
    hide Column, WordAt, FromColumns;
    Rebuilt(s);
  }

  lemma KeyColumn(s: State, w: seq<bv8>, r: nat, j: nat)
    requires |w| >= 16 * r + 16 && j < 4
    ensures Column(AddRoundKey(s, w, r), j) == Plus(Column(s, j), WordAt(w, 4 * r + j))
  {
    hide Plus;
  }

  lemma KeyWord(x: State, w: seq<bv8>, r: nat, j: nat)
    requires |w| >= 16 * r + 16 && j < 4
    ensures WordAt(KeyAdded(x, w, r), j) == Plus(WordAt(x, j), WordAt(w, 4 * r + j))
  {
    hide KeyAdded;
    KeyByte(x, w, r, 4 * j);
    KeyByte(x, w, r, 4 * j + 1);
    KeyByte(x, w, r, 4 * j + 2);
    KeyByte(x, w, r, 4 * j + 3);
  }

  lemma KeyByte(x: State, w: seq<bv8>, r: nat, n: nat)
    requires |w| >= 16 * r + 16 && n < 16
    ensures KeyAdded(x, w, r)[n] == x[n] ^ w[16 * r + n]
  {
  }

  lemma KeyBytes(x: State, w: seq<bv8>, r: nat)
    requires |w| >= 16 * r + 16
    ensures AddRoundKey(Transposed(x), w, r) == Transposed(KeyAdded(x, w, r))
    ensures Transposed(AddRoundKey(Transposed(x), w, r)) == KeyAdded(x, w, r)
  {
    hide Column, WordAt, Transposed, AddRoundKey, KeyAdded, Plus;
    forall j: nat | j < 4 ensures Column(AddRoundKey(Transposed(x), w, r), j) == WordAt(KeyAdded(x, w, r), j) {
      InColumns(x, j);
      KeyColumn(Transposed(x), w, r, j);
      KeyWord(x, w, r, j);
    }
    HoldsBlock(AddRoundKey(Transposed(x), w, r), KeyAdded(x, w, r));
    TransposedInverse(KeyAdded(x, w, r));
  }

  function SubWord(a: Word): Word { Word(SBox(a.c0), SBox(a.c1), SBox(a.c2), SBox(a.c3)) }

  lemma SubColumn(s: State, j: nat)
    requires j < 4
    ensures Column(SubBytes(s), j) == SubWord(Column(s, j))
  {
    hide SBox;
  }

  lemma SubstitutedWord(x: State, j: nat)
    requires j < 4
    ensures WordAt(Substituted(x), j) == SubWord(WordAt(x, j))
  {
    hide SBox;
  }

  lemma SubstitutedBytes(x: State)
    ensures SubBytes(Transposed(x)) == Transposed(Substituted(x))
  {
    hide Column, WordAt, Transposed, SubBytes, Substituted, SubWord;
    forall j: nat | j < 4 ensures Column(SubBytes(Transposed(x)), j) == WordAt(Substituted(x), j) {
      InColumns(x, j);
      SubColumn(Transposed(x), j);
      SubstitutedWord(x, j);
    }
    HoldsBlock(SubBytes(Transposed(x)), Substituted(x));
  }

  lemma ShiftedWord(x: State, j: nat)
    requires j < 4
    ensures WordAt(Shifted(x), j) == Word(x[4 * j], x[(j + 1) % 4 * 4 + 1], x[(j + 2) % 4 * 4 + 2], x[(j + 3) % 4 * 4 + 3])
  {
  }

  lemma ShiftedBytes(x: State)
    ensures ShiftRows(Transposed(x)) == Transposed(Shifted(x))
  {
    hide Transposed, ShiftRows, Shifted;
    forall j: nat | j < 4 ensures Column(ShiftRows(Transposed(x)), j) == WordAt(Shifted(x), j) {
      ShiftedAt(Transposed(x), 0, j);
      ShiftedAt(Transposed(x), 1, j);
      ShiftedAt(Transposed(x), 2, j);
      ShiftedAt(Transposed(x), 3, j);
      InColumns(x, j);
      InColumns(x, (j + 1) % 4);
      InColumns(x, (j + 2) % 4);
      InColumns(x, (j + 3) % 4);
      ShiftedWord(x, j);
    }
    HoldsBlock(ShiftRows(Transposed(x)), Shifted(x));
  }

  lemma TwiceIsMul(a: bv8)
    ensures Mul(0x02, a) == Twice(a) && Mul(0x03, a) == Twice(a) ^ a && Mul(0x01, a) == a
  {
    hide Steps;
    MulOneLeft(a);
    MulXTimeLeft(1, a);
    assert XTime(1) == 2 && Add(2, 1) == 3;
    StepsLeft(2, 1, a, 8);
  }

  lemma MixedWord(x: State, j: nat)
    requires j < 4
    ensures WordAt(Mixed(x), j) == Product(MIX, WordAt(x, j))
  {
    MixedFour(x, j);
    MixedColumn(WordAt(x, j));
    hide Product, MixedByte, Mixed;
  }

  lemma MixedFour(x: State, j: nat)
    requires j < 4
    ensures var a := WordAt(x, j);
            WordAt(Mixed(x), j) == Word(MixedByte(a.c0, a.c1, a.c2, a.c3), MixedByte(a.c1, a.c2, a.c3, a.c0),
                                        MixedByte(a.c2, a.c3, a.c0, a.c1), MixedByte(a.c3, a.c0, a.c1, a.c2))
  {
    hide MixedByte, Mixed;
    MixedIn(x, j, 0);
    MixedIn(x, j, 1);
    MixedIn(x, j, 2);
    MixedIn(x, j, 3);
  }

  lemma MixedIn(x: State, j: nat, i: nat)
    requires i < 4 && j < 4
    ensures var a, m := WordAt(x, j), Mixed(x)[4 * j + i];
            m == if i == 0 then MixedByte(a.c0, a.c1, a.c2, a.c3)
                 else if i == 1 then MixedByte(a.c1, a.c2, a.c3, a.c0)
                 else if i == 2 then MixedByte(a.c2, a.c3, a.c0, a.c1)
                 else MixedByte(a.c3, a.c0, a.c1, a.c2)
  {
    hide MixedByte, Mixed;
    MixedAt(x, j, i);
  }

  /** Byte `i` of column `j`. */
  lemma MixedAt(x: State, j: nat, i: nat)
    requires i < 4 && j < 4
    ensures Mixed(x)[4 * j + i] ==
            MixedByte(x[4 * j + i], x[4 * j + (i + 1) % 4], x[4 * j + (i + 2) % 4], x[4 * j + (i + 3) % 4])
  {
    hide MixedByte, Further;
    FurtherAt(x, j, i, 0);
    FurtherAt(x, j, i, 1);
    FurtherAt(x, j, i, 2);
    FurtherAt(x, j, i, 3);
  }

  lemma FurtherAt(x: State, j: nat, i: nat, k: nat)
    requires i < 4 && j < 4 && k < 4
    ensures Further(x, 4 * j + i, k) == x[4 * j + (i + k) % 4]
  {
    assert (4 * j + i) / 4 == j && (4 * j + i + k) % 4 == (i + k) % 4;
  }

  lemma MixedColumn(a: Word)
    ensures Product(MIX, a) == Word(MixedByte(a.c0, a.c1, a.c2, a.c3), MixedByte(a.c1, a.c2, a.c3, a.c0),
                                    MixedByte(a.c2, a.c3, a.c0, a.c1), MixedByte(a.c3, a.c0, a.c1, a.c2))
  {
    hide Mul, Twice, Sum4, MixedByte;
    MixedSum(a.c0, a.c1, a.c2, a.c3);
    MixedSum(a.c1, a.c2, a.c3, a.c0);
    MixedSum(a.c2, a.c3, a.c0, a.c1);
    MixedSum(a.c3, a.c0, a.c1, a.c2);
  }

  lemma MixedSum(a: bv8, b: bv8, c: bv8, d: bv8)
    ensures var m, p, q, r, s := MixedByte(a, b, c, d), Mul(0x02, a), Mul(0x03, b), Mul(0x01, c), Mul(0x01, d);
            m == Sum4(p, q, r, s) == Sum4(s, p, q, r) == Sum4(r, s, p, q) == Sum4(q, r, s, p)
  {
    TwiceIsMul(a);
    TwiceIsMul(b);
    TwiceIsMul(c);
    TwiceIsMul(d);
    hide Mul, Twice, Sum4;
    Sums(Twice(a), Twice(b) ^ b, c, d);
  }

  lemma Sums(p: bv8, q: bv8, r: bv8, s: bv8)
    ensures p ^ q ^ r ^ s == Sum4(p, q, r, s) == Sum4(s, p, q, r) == Sum4(r, s, p, q) == Sum4(q, r, s, p)
  {
    Rotate(p, q, r, s);
    AddAssoc(p ^ q, r, s);
  }

  lemma MixColumn(s: State, j: nat)
    requires j < 4
    ensures Column(MixWith(MIX, s), j) == Product(MIX, Column(s, j))
  {
    hide Product;
  }

  lemma MixedBytes(x: State)
    ensures MixWith(MIX, Transposed(x)) == Transposed(Mixed(x))
  {
    hide Column, WordAt, Transposed, MixWith, Mixed, Product;
    forall j: nat | j < 4 ensures Column(MixWith(MIX, Transposed(x)), j) == WordAt(Mixed(x), j) {
      InColumns(x, j);
      MixColumn(Transposed(x), j);
      MixedWord(x, j);
    }
    HoldsBlock(MixWith(MIX, Transposed(x)), Mixed(x));
  }

  lemma {:induction false} RoundsAgree(x: State, w: seq<bv8>, r: nat)
    requires |w| >= 16 * r + 16
    ensures AfterRound(Transposed(x), w, r) == Transposed(Rounds(x, w, r))
    decreases r
  {
    hide AddRoundKey, Transposed, SubBytes, ShiftRows, MixWith, KeyAdded, Substituted, Shifted, Mixed;
    if r == 0 {
      KeyBytes(x, w, 0);
    } else {
      var y := Rounds(x, w, r - 1);
      RoundsAgree(x, w, r - 1);
      SubstitutedBytes(y);
      ShiftedBytes(Substituted(y));
      MixedBytes(Shifted(Substituted(y)));
      KeyBytes(Mixed(Shifted(Substituted(y))), w, r);
    }
  }

  /** The cipher is the one of the standard, for every block, all round keys and 1 to 255 rounds. */
  lemma EncryptIsReference(x: State, w: seq<bv8>, nr: nat)
    requires RoundKeys(w, nr)
    ensures Encrypt(x, w, nr) == Reference(x, w, nr)
  {
    hide AddRoundKey, Transposed, SubBytes, ShiftRows, MixWith, KeyAdded, Substituted, Shifted, Mixed;
    var y := Rounds(x, w, nr - 1);
    RoundsAgree(x, w, nr - 1);
    SubstitutedBytes(y);
    ShiftedBytes(Substituted(y));
    KeyBytes(Shifted(Substituted(y)), w, nr);
    TransposedInverse(Reference(x, w, nr));
  }

  // ---------- the example of appendix C.1 of FIPS 197 ----------

  /** The words of a block. */
  datatype Block = Block(a: Word, b: Word, c: Word, d: Word)

  function BlockAt(x: seq<bv8>, r: nat): Block
    requires |x| >= 16 * r + 16
  {
    Block(WordAt(x, 4 * r), WordAt(x, 4 * r + 1), WordAt(x, 4 * r + 2), WordAt(x, 4 * r + 3))
  }

  function Bytes(bs: seq<Block>): (x: seq<bv8>)
    ensures |x| == 16 * |bs|
  {
    if bs == [] then [] else Bytes(bs[..|bs| - 1]) + BlockBytes(bs[|bs| - 1])
  }

  function BlockBytes(b: Block): (x: seq<bv8>)
    ensures |x| == 16
  {
    [b.a.c0, b.a.c1, b.a.c2, b.a.c3, b.b.c0, b.b.c1, b.b.c2, b.b.c3,
     b.c.c0, b.c.c1, b.c.c2, b.c.c3, b.d.c0, b.d.c1, b.d.c2, b.d.c3]
  }

  lemma {:induction false} BytesAt(bs: seq<Block>, r: nat)
    requires r < |bs|
    ensures BlockAt(Bytes(bs), r) == bs[r]
  {
    hide BlockBytes, WordAt;
    var front, last := bs[..|bs| - 1], bs[|bs| - 1];
    if r < |front| {
      BytesAt(front, r);
      WordsStay(Bytes(front), BlockBytes(last), r);
    } else {
      assert 16 * r == |Bytes(front)|;
      NewWord(Bytes(front), last, r);
    }
  }

  lemma WordsStay(front: seq<bv8>, back: seq<bv8>, r: nat)
    requires |front| >= 16 * r + 16
    ensures BlockAt(front + back, r) == BlockAt(front, r)
  {
  }

  lemma NewWord(front: seq<bv8>, b: Block, r: nat)
    requires |front| == 16 * r
    ensures BlockAt(front + BlockBytes(b), r) == b
  {
    var x, y := front + BlockBytes(b), BlockBytes(b);
    hide BlockBytes;
    assert forall n :: 0 <= n < 16 ==> x[16 * r + n] == y[n];
    LastBlock(b);
    assert WordAt(x, 4 * r) == WordAt(y, 0) && WordAt(x, 4 * r + 1) == WordAt(y, 1);
    assert WordAt(x, 4 * r + 2) == WordAt(y, 2) && WordAt(x, 4 * r + 3) == WordAt(y, 3);
  }

  lemma LastBlock(b: Block)
    ensures BlockAt(BlockBytes(b), 0) == b
  {
  }

  function Keyed(x: Block, k: Block): Block { Block(Plus(x.a, k.a), Plus(x.b, k.b), Plus(x.c, k.c), Plus(x.d, k.d)) }

  function SlantedBlock(x: Block): Block {
    Block(SubWord(Word(x.a.c0, x.b.c1, x.c.c2, x.d.c3)), SubWord(Word(x.b.c0, x.c.c1, x.d.c2, x.a.c3)),
          SubWord(Word(x.c.c0, x.d.c1, x.a.c2, x.b.c3)), SubWord(Word(x.d.c0, x.a.c1, x.b.c2, x.c.c3)))
  }

  function MixedWordOf(a: Word): Word {
    Word(MixedByte(a.c0, a.c1, a.c2, a.c3), MixedByte(a.c1, a.c2, a.c3, a.c0),
         MixedByte(a.c2, a.c3, a.c0, a.c1), MixedByte(a.c3, a.c0, a.c1, a.c2))
  }

  function MixedBlock(x: Block): Block {
    Block(MixedWordOf(x.a), MixedWordOf(x.b), MixedWordOf(x.c), MixedWordOf(x.d))
  }

  function Next(x: Block, k: Block): Block { Keyed(MixedBlock(SlantedBlock(x)), k) }

  lemma KeyedBlock(x: State, w: seq<bv8>, r: nat)
    requires |w| >= 16 * r + 16
    ensures BlockAt(KeyAdded(x, w, r), 0) == Keyed(BlockAt(x, 0), BlockAt(w, r))
  {
    hide WordAt, KeyAdded, Plus;
    KeyWord(x, w, r, 0);
    KeyWord(x, w, r, 1);
    KeyWord(x, w, r, 2);
    KeyWord(x, w, r, 3);
  }

  lemma SlantedWord(x: State, j: nat)
    requires j < 4
    ensures WordAt(Shifted(Substituted(x)), j) ==
            SubWord(Word(x[4 * j], x[(j + 1) % 4 * 4 + 1], x[(j + 2) % 4 * 4 + 2], x[(j + 3) % 4 * 4 + 3]))
  {
    hide SBox, Shifted;
    ShiftedWord(Substituted(x), j);
  }

  lemma SlantedWords(x: State)
    ensures BlockAt(Shifted(Substituted(x)), 0) == SlantedBlock(BlockAt(x, 0))
  {
    hide SubWord, Shifted, Substituted;
    SlantedWord(x, 0);
    SlantedWord(x, 1);
    SlantedWord(x, 2);
    SlantedWord(x, 3);
  }

  lemma MixedWords(x: State)
    ensures BlockAt(Mixed(x), 0) == MixedBlock(BlockAt(x, 0))
  {
    hide Mixed, MixedByte, WordAt;
    MixedFour(x, 0);
    MixedFour(x, 1);
    MixedFour(x, 2);
    MixedFour(x, 3);
  }

  lemma SameBlock(x: State, y: State)
    requires BlockAt(x, 0) == BlockAt(y, 0)
    ensures x == y
  {
    hide WordAt, Transposed;
    forall j: nat | j < 4 ensures Column(Transposed(y), j) == WordAt(x, j) {
      InColumns(y, j);
    }
    HoldsBlock(Transposed(y), x);
    TransposedInverse(x);
    TransposedInverse(y);
  }

  lemma RoundBlock(x: State, w: seq<bv8>, r: nat)
    requires 0 < r && |w| >= 16 * r + 16
    ensures BlockAt(Rounds(x, w, r), 0) == Next(BlockAt(Rounds(x, w, r - 1), 0), BlockAt(w, r))
  {
    hide KeyAdded, Mixed, Shifted, Substituted, BlockAt, Keyed, MixedBlock, SlantedBlock;
    var y := Rounds(x, w, r - 1);
    SlantedWords(y);
    MixedWords(Shifted(Substituted(y)));
    KeyedBlock(Mixed(Shifted(Substituted(y))), w, r);
  }

  const PLAIN := Block(Word(0x00, 0x11, 0x22, 0x33), Word(0x44, 0x55, 0x66, 0x77),
                    Word(0x88, 0x99, 0xaa, 0xbb), Word(0xcc, 0xdd, 0xee, 0xff))
  const KEY0 := Block(Word(0x00, 0x01, 0x02, 0x03), Word(0x04, 0x05, 0x06, 0x07),
                    Word(0x08, 0x09, 0x0a, 0x0b), Word(0x0c, 0x0d, 0x0e, 0x0f))
  const KEY1 := Block(Word(0xd6, 0xaa, 0x74, 0xfd), Word(0xd2, 0xaf, 0x72, 0xfa),
                    Word(0xda, 0xa6, 0x78, 0xf1), Word(0xd6, 0xab, 0x76, 0xfe))
  const KEY2 := Block(Word(0xb6, 0x92, 0xcf, 0x0b), Word(0x64, 0x3d, 0xbd, 0xf1),
                    Word(0xbe, 0x9b, 0xc5, 0x00), Word(0x68, 0x30, 0xb3, 0xfe))
  const KEY3 := Block(Word(0xb6, 0xff, 0x74, 0x4e), Word(0xd2, 0xc2, 0xc9, 0xbf),
                    Word(0x6c, 0x59, 0x0c, 0xbf), Word(0x04, 0x69, 0xbf, 0x41))
  const KEY4 := Block(Word(0x47, 0xf7, 0xf7, 0xbc), Word(0x95, 0x35, 0x3e, 0x03),
                    Word(0xf9, 0x6c, 0x32, 0xbc), Word(0xfd, 0x05, 0x8d, 0xfd))
  const KEY5 := Block(Word(0x3c, 0xaa, 0xa3, 0xe8), Word(0xa9, 0x9f, 0x9d, 0xeb),
                    Word(0x50, 0xf3, 0xaf, 0x57), Word(0xad, 0xf6, 0x22, 0xaa))
  const KEY6 := Block(Word(0x5e, 0x39, 0x0f, 0x7d), Word(0xf7, 0xa6, 0x92, 0x96),
                    Word(0xa7, 0x55, 0x3d, 0xc1), Word(0x0a, 0xa3, 0x1f, 0x6b))
  const KEY7 := Block(Word(0x14, 0xf9, 0x70, 0x1a), Word(0xe3, 0x5f, 0xe2, 0x8c),
                    Word(0x44, 0x0a, 0xdf, 0x4d), Word(0x4e, 0xa9, 0xc0, 0x26))
  const KEY8 := Block(Word(0x47, 0x43, 0x87, 0x35), Word(0xa4, 0x1c, 0x65, 0xb9),
                    Word(0xe0, 0x16, 0xba, 0xf4), Word(0xae, 0xbf, 0x7a, 0xd2))
  const KEY9 := Block(Word(0x54, 0x99, 0x32, 0xd1), Word(0xf0, 0x85, 0x57, 0x68),
                    Word(0x10, 0x93, 0xed, 0x9c), Word(0xbe, 0x2c, 0x97, 0x4e))
  const KEY10 := Block(Word(0x13, 0x11, 0x1d, 0x7f), Word(0xe3, 0x94, 0x4a, 0x17),
                    Word(0xf3, 0x07, 0xa7, 0x8b), Word(0x4d, 0x2b, 0x30, 0xc5))
  const STATE0 := Block(Word(0x00, 0x10, 0x20, 0x30), Word(0x40, 0x50, 0x60, 0x70),
                    Word(0x80, 0x90, 0xa0, 0xb0), Word(0xc0, 0xd0, 0xe0, 0xf0))
  const STATE1 := Block(Word(0x89, 0xd8, 0x10, 0xe8), Word(0x85, 0x5a, 0xce, 0x68),
                    Word(0x2d, 0x18, 0x43, 0xd8), Word(0xcb, 0x12, 0x8f, 0xe4))
  const STATE2 := Block(Word(0x49, 0x15, 0x59, 0x8f), Word(0x55, 0xe5, 0xd7, 0xa0),
                    Word(0xda, 0xca, 0x94, 0xfa), Word(0x1f, 0x0a, 0x63, 0xf7))
  const STATE3 := Block(Word(0xfa, 0x63, 0x6a, 0x28), Word(0x25, 0xb3, 0x39, 0xc9),
                    Word(0x40, 0x66, 0x8a, 0x31), Word(0x57, 0x24, 0x4d, 0x17))
  const STATE4 := Block(Word(0x24, 0x72, 0x40, 0x23), Word(0x69, 0x66, 0xb3, 0xfa),
                    Word(0x6e, 0xd2, 0x75, 0x32), Word(0x88, 0x42, 0x5b, 0x6c))
  const STATE5 := Block(Word(0xc8, 0x16, 0x77, 0xbc), Word(0x9b, 0x7a, 0xc9, 0x3b),
                    Word(0x25, 0x02, 0x79, 0x92), Word(0xb0, 0x26, 0x19, 0x96))
  const STATE6 := Block(Word(0xc6, 0x2f, 0xe1, 0x09), Word(0xf7, 0x5e, 0xed, 0xc3),
                    Word(0xcc, 0x79, 0x39, 0x5d), Word(0x84, 0xf9, 0xcf, 0x5d))
  const STATE7 := Block(Word(0xd1, 0x87, 0x6c, 0x0f), Word(0x79, 0xc4, 0x30, 0x0a),
                    Word(0xb4, 0x55, 0x94, 0xad), Word(0xd6, 0x6f, 0xf4, 0x1f))
  const STATE8 := Block(Word(0xfd, 0xe3, 0xba, 0xd2), Word(0x05, 0xe5, 0xd0, 0xd7),
                    Word(0x35, 0x47, 0x96, 0x4e), Word(0xf1, 0xfe, 0x37, 0xf1))
  const STATE9 := Block(Word(0xbd, 0x6e, 0x7c, 0x3d), Word(0xf2, 0xb5, 0x77, 0x9e),
                    Word(0x0b, 0x61, 0x21, 0x6e), Word(0x8b, 0x10, 0xb6, 0x89))
  const CIPHER := Block(Word(0x69, 0xc4, 0xe0, 0xd8), Word(0x6a, 0x7b, 0x04, 0x30),
                    Word(0xd8, 0xcd, 0xb7, 0x80), Word(0x70, 0xb4, 0xc5, 0x5a))

  /** The expanded key. */
  const KEYS := [KEY0, KEY1, KEY2, KEY3, KEY4, KEY5, KEY6, KEY7, KEY8, KEY9, KEY10]

  lemma FirstKey()
    ensures Keyed(PLAIN, KEY0) == STATE0
  {
  }

  lemma LastRound()
    ensures Keyed(SlantedBlock(STATE9), KEY10) == CIPHER
  {
    hide SBoxAt;
    RowsAre();
    assert SBox(0xbd) == 0x7a && SBox(0x6e) == 0x9f && SBox(0x7c) == 0x10 && SBox(0x3d) == 0x27
           && SBox(0xf2) == 0x89 && SBox(0xb5) == 0xd5 && SBox(0x77) == 0xf5 && SBox(0x9e) == 0x0b
           && SBox(0x0b) == 0x2b && SBox(0x61) == 0xef && SBox(0x21) == 0xfd && SBox(0x6e) == 0x9f
           && SBox(0x8b) == 0x3d && SBox(0x10) == 0xca && SBox(0xb6) == 0x4e && SBox(0x89) == 0xa7;
    hide SBox;
  }

  lemma Round1()
    ensures Next(STATE0, KEY1) == STATE1
  {
    hide SBoxAt;
    RowsAre();
    assert SBox(0x00) == 0x63 && SBox(0x10) == 0xca && SBox(0x20) == 0xb7 && SBox(0x30) == 0x04
           && SBox(0x40) == 0x09 && SBox(0x50) == 0x53 && SBox(0x60) == 0xd0 && SBox(0x70) == 0x51
           && SBox(0x80) == 0xcd && SBox(0x90) == 0x60 && SBox(0xa0) == 0xe0 && SBox(0xb0) == 0xe7
           && SBox(0xc0) == 0xba && SBox(0xd0) == 0x70 && SBox(0xe0) == 0xe1 && SBox(0xf0) == 0x8c;
    hide SBox;
  }

  lemma Round2()
    ensures Next(STATE1, KEY2) == STATE2
  {
    hide SBoxAt;
    RowsAre();
    assert SBox(0x89) == 0xa7 && SBox(0xd8) == 0x61 && SBox(0x10) == 0xca && SBox(0xe8) == 0x9b
           && SBox(0x85) == 0x97 && SBox(0x5a) == 0xbe && SBox(0xce) == 0x8b && SBox(0x68) == 0x45
           && SBox(0x2d) == 0xd8 && SBox(0x18) == 0xad && SBox(0x43) == 0x1a && SBox(0xd8) == 0x61
           && SBox(0xcb) == 0x1f && SBox(0x12) == 0xc9 && SBox(0x8f) == 0x73 && SBox(0xe4) == 0x69;
    hide SBox;
  }

  lemma Round3()
    ensures Next(STATE2, KEY3) == STATE3
  {
    hide SBoxAt;
    RowsAre();
    assert SBox(0x49) == 0x3b && SBox(0x15) == 0x59 && SBox(0x59) == 0xcb && SBox(0x8f) == 0x73
           && SBox(0x55) == 0xfc && SBox(0xe5) == 0xd9 && SBox(0xd7) == 0x0e && SBox(0xa0) == 0xe0
           && SBox(0xda) == 0x57 && SBox(0xca) == 0x74 && SBox(0x94) == 0x22 && SBox(0xfa) == 0x2d
           && SBox(0x1f) == 0xc0 && SBox(0x0a) == 0x67 && SBox(0x63) == 0xfb && SBox(0xf7) == 0x68;
    hide SBox;
  }

  lemma Round4()
    ensures Next(STATE3, KEY4) == STATE4
  {
    hide SBoxAt;
    RowsAre();
    assert SBox(0xfa) == 0x2d && SBox(0x63) == 0xfb && SBox(0x6a) == 0x02 && SBox(0x28) == 0x34
           && SBox(0x25) == 0x3f && SBox(0xb3) == 0x6d && SBox(0x39) == 0x12 && SBox(0xc9) == 0xdd
           && SBox(0x40) == 0x09 && SBox(0x66) == 0x33 && SBox(0x8a) == 0x7e && SBox(0x31) == 0xc7
           && SBox(0x57) == 0x5b && SBox(0x24) == 0x36 && SBox(0x4d) == 0xe3 && SBox(0x17) == 0xf0;
    hide SBox;
  }

  lemma Round5()
    ensures Next(STATE4, KEY5) == STATE5
  {
    hide SBoxAt;
    RowsAre();
    assert SBox(0x24) == 0x36 && SBox(0x72) == 0x40 && SBox(0x40) == 0x09 && SBox(0x23) == 0x26
           && SBox(0x69) == 0xf9 && SBox(0x66) == 0x33 && SBox(0xb3) == 0x6d && SBox(0xfa) == 0x2d
           && SBox(0x6e) == 0x9f && SBox(0xd2) == 0xb5 && SBox(0x75) == 0x9d && SBox(0x32) == 0x23
           && SBox(0x88) == 0xc4 && SBox(0x42) == 0x2c && SBox(0x5b) == 0x39 && SBox(0x6c) == 0x50;
    hide SBox;
  }

  lemma Round6()
    ensures Next(STATE5, KEY6) == STATE6
  {
    hide SBoxAt;
    RowsAre();
    assert SBox(0xc8) == 0xe8 && SBox(0x16) == 0x47 && SBox(0x77) == 0xf5 && SBox(0xbc) == 0x65
           && SBox(0x9b) == 0x14 && SBox(0x7a) == 0xda && SBox(0xc9) == 0xdd && SBox(0x3b) == 0xe2
           && SBox(0x25) == 0x3f && SBox(0x02) == 0x77 && SBox(0x79) == 0xb6 && SBox(0x92) == 0x4f
           && SBox(0xb0) == 0xe7 && SBox(0x26) == 0xf7 && SBox(0x19) == 0xd4 && SBox(0x96) == 0x90;
    hide SBox;
  }

  lemma Round7()
    ensures Next(STATE6, KEY7) == STATE7
  {
    hide SBoxAt;
    RowsAre();
    assert SBox(0xc6) == 0xb4 && SBox(0x2f) == 0x15 && SBox(0xe1) == 0xf8 && SBox(0x09) == 0x01
           && SBox(0xf7) == 0x68 && SBox(0x5e) == 0x58 && SBox(0xed) == 0x55 && SBox(0xc3) == 0x2e
           && SBox(0xcc) == 0x4b && SBox(0x79) == 0xb6 && SBox(0x39) == 0x12 && SBox(0x5d) == 0x4c
           && SBox(0x84) == 0x5f && SBox(0xf9) == 0x99 && SBox(0xcf) == 0x8a && SBox(0x5d) == 0x4c;
    hide SBox;
  }

  lemma Round8()
    ensures Next(STATE7, KEY8) == STATE8
  {
    hide SBoxAt;
    RowsAre();
    assert SBox(0xd1) == 0x3e && SBox(0x87) == 0x17 && SBox(0x6c) == 0x50 && SBox(0x0f) == 0x76
           && SBox(0x79) == 0xb6 && SBox(0xc4) == 0x1c && SBox(0x30) == 0x04 && SBox(0x0a) == 0x67
           && SBox(0xb4) == 0x8d && SBox(0x55) == 0xfc && SBox(0x94) == 0x22 && SBox(0xad) == 0x95
           && SBox(0xd6) == 0xf6 && SBox(0x6f) == 0xa8 && SBox(0xf4) == 0xbf && SBox(0x1f) == 0xc0;
    hide SBox;
  }

  lemma Round9()
    ensures Next(STATE8, KEY9) == STATE9
  {
    hide SBoxAt;
    RowsAre();
    assert SBox(0xfd) == 0x54 && SBox(0xe3) == 0x11 && SBox(0xba) == 0xf4 && SBox(0xd2) == 0xb5
           && SBox(0x05) == 0x6b && SBox(0xe5) == 0xd9 && SBox(0xd0) == 0x70 && SBox(0xd7) == 0x0e
           && SBox(0x35) == 0x96 && SBox(0x47) == 0xa0 && SBox(0x96) == 0x90 && SBox(0x4e) == 0x2f
           && SBox(0xf1) == 0xa1 && SBox(0xfe) == 0xbb && SBox(0x37) == 0x9a && SBox(0xf1) == 0xa1;
    hide SBox;
  }

  /** The example block is enciphered as the standard says. */
  lemma Example()
    ensures Encrypt(Bytes([PLAIN]), Bytes(KEYS), 10) == Bytes([CIPHER])
  {
    hide *;
    var x, w := Bytes([PLAIN]), Bytes(KEYS);
    BytesAt([PLAIN], 0);
    ExampleKeys(w);
    ExampleRounds(x, w);
    EncryptIsReference(x, w, 10);
    var y := Rounds(x, w, 9);
    SlantedWords(y);
    KeyedBlock(Shifted(Substituted(y)), w, 10);
    LastRound();
    LastOf(x, w);
    BytesAt([CIPHER], 0);
    SameBlock(Reference(x, w, 10), Bytes([CIPHER]));
  }

  lemma LastOf(x: State, w: seq<bv8>)
    requires RoundKeys(w, 10)
    ensures Reference(x, w, 10) == KeyAdded(Shifted(Substituted(Rounds(x, w, 9))), w, 10)
  {
  }

  lemma ExampleKeys(w: seq<bv8>)
    requires w == Bytes(KEYS)
    ensures RoundKeys(w, 10) && |w| == 176
    ensures BlockAt(w, 0) == KEY0 && BlockAt(w, 1) == KEY1 && BlockAt(w, 2) == KEY2 && BlockAt(w, 3) == KEY3
    ensures BlockAt(w, 4) == KEY4 && BlockAt(w, 5) == KEY5 && BlockAt(w, 6) == KEY6 && BlockAt(w, 7) == KEY7
    ensures BlockAt(w, 8) == KEY8 && BlockAt(w, 9) == KEY9 && BlockAt(w, 10) == KEY10
  {
    hide Bytes, BlockAt;
    BytesAt(KEYS, 0);
    BytesAt(KEYS, 1);
    BytesAt(KEYS, 2);
    BytesAt(KEYS, 3);
    BytesAt(KEYS, 4);
    BytesAt(KEYS, 5);
    BytesAt(KEYS, 6);
    BytesAt(KEYS, 7);
    BytesAt(KEYS, 8);
    BytesAt(KEYS, 9);
    BytesAt(KEYS, 10);
  }

  lemma ExampleRounds(x: State, w: seq<bv8>)
    requires BlockAt(x, 0) == PLAIN && |w| == 176
    requires BlockAt(w, 0) == KEY0 && BlockAt(w, 1) == KEY1 && BlockAt(w, 2) == KEY2 && BlockAt(w, 3) == KEY3
    requires BlockAt(w, 4) == KEY4 && BlockAt(w, 5) == KEY5 && BlockAt(w, 6) == KEY6 && BlockAt(w, 7) == KEY7
    requires BlockAt(w, 8) == KEY8 && BlockAt(w, 9) == KEY9
    ensures BlockAt(Rounds(x, w, 9), 0) == STATE9
  {
    hide BlockAt, Next, KeyAdded, Mixed, Shifted, Substituted, Keyed;
    KeyedBlock(x, w, 0);
    FirstKey();
    assert Rounds(x, w, 0) == KeyAdded(x, w, 0);
    hide Rounds, PLAIN;
    RoundBlock(x, w, 1);
    Round1();
    RoundBlock(x, w, 2);
    Round2();
    RoundBlock(x, w, 3);
    Round3();
    RoundBlock(x, w, 4);
    Round4();
    RoundBlock(x, w, 5);
    Round5();
    RoundBlock(x, w, 6);
    Round6();
    RoundBlock(x, w, 7);
    Round7();
    RoundBlock(x, w, 8);
    Round8();
    RoundBlock(x, w, 9);
    Round9();
  }
}

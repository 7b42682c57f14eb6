/** crc.c and crc_table.c: the shift register that the CRC-16 and the CRC-32 share, bit by bit
    and by table. */
module CrcRegister {

  predicate Odd(c: bv32) { c & 1 != 0 }

  function Half(c: bv32): bv32 { c >> 1 }

  /** One bit, least significant first, with the reversed polynomial `poly`. */
  function Step(poly: bv32, c: bv32): bv32 {
    if Odd(c) then Add(Half(c), poly) else Half(c)
  }

  function Steps(poly: bv32, c: bv32, n: nat): bv32
    decreases n
  {
    if n == 0 then c else Steps(poly, Step(poly, c), n - 1)
  }

  function Add(a: bv32, b: bv32): bv32 { a ^ b }

  function Byte(b: bv8): bv32 { b as bv32 }

  function Shift(c: bv32): bv32 { c >> 8 }

  function Low(c: bv32): bv8 { (c & 0xff) as bv8 }

  function High(c: bv32): bv32 { c & 0xffff_ff00 }

  /** The bitwise loop. */
  function Bitwise(poly: bv32, crc: bv32, input: seq<bv8>): bv32
    decreases |input|
  {
    if input == [] then crc else Bitwise(poly, Steps(poly, Add(crc, Byte(input[0])), 8), input[1..])
  }

  /** The loop over the table, whose entry for a byte is the byte after eight steps. */
  function ByTable(poly: bv32, crc: bv32, input: seq<bv8>): bv32
    decreases |input|
  {
    if input == [] then crc
    else ByTable(poly, Add(Shift(crc), Steps(poly, Byte(Low(Add(crc, Byte(input[0])))), 8)), input[1..])
  }

  // ---------- the step is linear ----------

  function Feedback(poly: bv32, c: bv32): bv32 { if Odd(c) then poly else 0 }

  lemma StepParts(poly: bv32, c: bv32)
    ensures Step(poly, c) == Add(Half(c), Feedback(poly, c))
  {
    hide Odd, Add, Half;
    AddZero(Half(c));
  }

  lemma HalfLinear(a: bv32, b: bv32)
    ensures Half(Add(a, b)) == Add(Half(a), Half(b))
  {
  }

  lemma FeedbackLinear(poly: bv32, a: bv32, b: bv32)
    ensures Feedback(poly, Add(a, b)) == Add(Feedback(poly, a), Feedback(poly, b))
  {
    hide Odd, Add;
    OddAdd(a, b);
    AddZero(poly);
    AddZero(0);
  }

  lemma OddAdd(a: bv32, b: bv32)
    ensures Odd(Add(a, b)) <==> Odd(a) != Odd(b)
  {
    assert (a ^ b) & 1 == (a & 1) ^ (b & 1);
    LowBit(a);
    LowBit(b);
  }

  lemma LowBit(c: bv32)
    ensures c & 1 == if Odd(c) then 1 else 0
  {
  }

  lemma AddZero(a: bv32)
    ensures Add(a, 0) == a && Add(0, a) == a && Add(a, a) == 0
  {
  }

  lemma AddAssoc(a: bv32, b: bv32, c: bv32)
    ensures Add(Add(a, b), c) == Add(a, Add(b, c))
  {
  }

  lemma AddComm(a: bv32, b: bv32)
    ensures Add(a, b) == Add(b, a)
  {
  }

  lemma Swap(a: bv32, b: bv32, c: bv32, d: bv32)
    ensures Add(Add(a, b), Add(c, d)) == Add(Add(a, c), Add(b, d))
  {
    hide Add;
    AddAssoc(a, b, Add(c, d));
    AddAssoc(b, c, d);
    AddComm(b, c);
    AddAssoc(c, b, d);
    AddAssoc(a, c, Add(b, d));
  }

  lemma StepLinear(poly: bv32, a: bv32, b: bv32)
    ensures Step(poly, Add(a, b)) == Add(Step(poly, a), Step(poly, b))
  {
    hide Add, Half, Feedback, Step;
    StepParts(poly, a);
    StepParts(poly, b);
    StepParts(poly, Add(a, b));
    HalfLinear(a, b);
    FeedbackLinear(poly, a, b);
    Swap(Half(a), Half(b), Feedback(poly, a), Feedback(poly, b));
  }

  lemma {:induction false} StepsLinear(poly: bv32, a: bv32, b: bv32, n: nat)
    ensures Steps(poly, Add(a, b), n) == Add(Steps(poly, a, n), Steps(poly, b, n))
    decreases n
  {
    hide Add, Step;
    if n > 0 {
      StepLinear(poly, a, b);
      StepsLinear(poly, Step(poly, a), Step(poly, b), n - 1);
    }
  }

  // ---------- a byte at a time ----------

  lemma LowHigh(c: bv32)
    ensures c == Add(Byte(Low(c)), High(c))
  {
  }

  function Halves(c: bv32, n: nat): bv32
    decreases n
  {
    if n == 0 then c else Halves(Half(c), n - 1)
  }

  /** The `n` lowest bits. */
  function Mask(n: nat): bv32
    requires n <= 8
  {
    match n
    case 0 => 0
    case 1 => 1
    case 2 => 3
    case 3 => 7
    case 4 => 0x0f
    case 5 => 0x1f
    case 6 => 0x3f
    case 7 => 0x7f
    case 8 => 0xff
  }

  predicate NoneLow(c: bv32, m: bv32) { c & m == 0 }

  lemma MaskDown(c: bv32, n: nat)
    requires 0 < n <= 8 && NoneLow(c, Mask(n))
    ensures NoneLow(c, 1) && NoneLow(Half(c), Mask(n - 1))
  {
    match n
    case 1 => assert (c >> 1) & 0 == 0;
    case 2 => Down(c, 3, 1);
    case 3 => Down(c, 7, 3);
    case 4 => Down(c, 0x0f, 7);
    case 5 => Down(c, 0x1f, 0x0f);
    case 6 => Down(c, 0x3f, 0x1f);
    case 7 => Down(c, 0x7f, 0x3f);
    case 8 => Down(c, 0xff, 0x7f);
  }

  lemma Down(c: bv32, m: bv32, k: bv32)
    requires NoneLow(c, m) && m >> 1 == k && m & 1 == 1
    ensures NoneLow(c, 1) && NoneLow(Half(c), k)
  {
    assert (c >> 1) & (m >> 1) == (c & m) >> 1;
    assert (c & m) & 1 == c & (m & 1);
  }

  lemma EvenStep(poly: bv32, c: bv32)
    requires NoneLow(c, 1)
    ensures Step(poly, c) == Half(c)
  {
  }

  /** Where no low bit is set, steps are shifts. */
  lemma {:induction false} EvenSteps(poly: bv32, c: bv32, n: nat)
    requires n <= 8 && NoneLow(c, Mask(n))
    ensures Steps(poly, c, n) == Halves(c, n)
    decreases n
  {
    hide Step, Half, NoneLow;
    if n > 0 {
      MaskDown(c, n);
      EvenStep(poly, c);
      EvenSteps(poly, Half(c), n - 1);
    }
  }

  lemma HighSteps(poly: bv32, c: bv32)
    ensures Steps(poly, High(c), 8) == Shift(c)
  {
    NoLow(c);
    Eighth(High(c));
    ShiftHigh(c);
    hide High, Shift, NoneLow;
    EvenSteps(poly, High(c), 8);
  }

  lemma NoLow(c: bv32)
    ensures NoneLow(High(c), Mask(8))
  {
  }

  function Moved(c: bv32, k: nat): bv32
    requires k <= 8
  {
    match k
    case 0 => c
    case 1 => c >> 1
    case 2 => c >> 2
    case 3 => c >> 3
    case 4 => c >> 4
    case 5 => c >> 5
    case 6 => c >> 6
    case 7 => c >> 7
    case 8 => c >> 8
  }

  lemma MovedNext(c: bv32, k: nat)
    requires k < 8
    ensures Half(Moved(c, k)) == Moved(c, k + 1)
  {
    ShiftAgain(c);
    hide Half;
  }

  lemma ShiftAgain(c: bv32)
    ensures Half(c) == c >> 1 && Half(c >> 1) == c >> 2 && Half(c >> 2) == c >> 3 && Half(c >> 3) == c >> 4
    ensures Half(c >> 4) == c >> 5 && Half(c >> 5) == c >> 6 && Half(c >> 6) == c >> 7 && Half(c >> 7) == c >> 8
  {
  }

  lemma {:induction false} HalvesMoved(c: bv32, k: nat, n: nat)
    requires k + n <= 8
    ensures Halves(Moved(c, k), n) == Moved(c, k + n)
    decreases n
  {
    hide Half, Moved;
    if n > 0 {
      MovedNext(c, k);
      HalvesMoved(c, k + 1, n - 1);
    }
  }

  lemma Eighth(c: bv32)
    ensures Halves(c, 8) == Shift(c)
  {
    hide *;
    MovedEnds(c);
    HalvesMoved(c, 0, 8);
  }

  lemma MovedEnds(c: bv32)
    ensures Moved(c, 0) == c && Moved(c, 8) == Shift(c)
  {
  }

  lemma ShiftHigh(c: bv32)
    ensures Shift(High(c)) == Shift(c)
  {
  }

  /** Eight bitwise steps are one table step, from any register. */
  lemma ByteStep(poly: bv32, c: bv32)
    ensures Steps(poly, c, 8) == Add(Shift(c), Steps(poly, Byte(Low(c)), 8))
  {
    LowHigh(c);
    StepsLinear(poly, Byte(Low(c)), High(c), 8);
    HighSteps(poly, c);
    hide Add, Steps;
    AddComm(Steps(poly, Byte(Low(c)), 8), Shift(c));
  }

  lemma ShiftByte(c: bv32, b: bv8)
    ensures Shift(Add(c, Byte(b))) == Shift(c)
  {
  }

  /** The table form equals the bitwise form, for every start value and input. */
  lemma {:induction false} TableIsBitwise(poly: bv32, crc: bv32, input: seq<bv8>)
    ensures ByTable(poly, crc, input) == Bitwise(poly, crc, input)
    decreases |input|
  {
    hide Add, Steps, Shift, Low, Byte;
    if input != [] {
      ByteStep(poly, Add(crc, Byte(input[0])));
      ShiftByte(crc, input[0]);
      TableIsBitwise(poly, Steps(poly, Add(crc, Byte(input[0])), 8), input[1..]);
    }
  }

  function Sum(a: seq<bv8>, b: seq<bv8>): (s: seq<bv8>)
    requires |a| == |b|
    ensures |s| == |a|
  {
    if a == [] then [] else [a[0] ^ b[0]] + Sum(a[1..], b[1..])
  }

  /** The CRC of a sum is the sum of the CRCs. */
  lemma {:induction false} BitwiseLinear(poly: bv32, c: bv32, d: bv32, a: seq<bv8>, b: seq<bv8>)
    requires |a| == |b|
    ensures Bitwise(poly, Add(c, d), Sum(a, b)) == Add(Bitwise(poly, c, a), Bitwise(poly, d, b))
    decreases |a|
  {
    if a != [] {
      ByteLinear(a[0], b[0]);
      hide Add, Steps, Byte;
      assert Sum(a, b)[1..] == Sum(a[1..], b[1..]);
      Swap(c, d, Byte(a[0]), Byte(b[0]));
      StepsLinear(poly, Add(c, Byte(a[0])), Add(d, Byte(b[0])), 8);
      BitwiseLinear(poly, Steps(poly, Add(c, Byte(a[0])), 8), Steps(poly, Add(d, Byte(b[0])), 8), a[1..], b[1..]);
    }
  }

  lemma ByteLinear(a: bv8, b: bv8)
    ensures Byte(a ^ b) == Add(Byte(a), Byte(b))
  {
  }

  // ---------- shared loops ----------

  /** The bitwise inner loop. */
  method EightSteps(poly: bv32, c0: bv32) returns (c: bv32)
    ensures c == Steps(poly, c0, 8)
  {
    hide Step;
    c := c0;
    for j := 0 to 8
      invariant Steps(poly, c, 8 - j) == Steps(poly, c0, 8)
    {
      c := OneStep(poly, c);
    }
  }

  method OneStep(poly: bv32, c0: bv32) returns (c: bv32)
    ensures c == Step(poly, c0)
  {
    if c0 & 1 != 0 {
      c := (c0 >> 1) ^ poly;
    } else {
      c := c0 >> 1;
    }
  }

  /** Entry `i` of the table. */
  function Entry(poly: bv32, i: nat): bv32
    requires i < 256
  {
    Steps(poly, Byte(i as bv8), 8)
  }

  lemma EntryOf(poly: bv32, b: bv8)
    ensures 0 <= b as nat < 256 && Entry(poly, b as nat) == Steps(poly, Byte(b), 8)
  {
    assert (b as nat) as bv8 == b;
  }

  ghost predicate Filled(poly: bv32, tab: seq<bv32>, n: nat) {
    n <= |tab| == 256 && forall k: nat :: k < n ==> tab[k] == Entry(poly, k)
  }

  /** The loop of crc16_tab and crc32_tab. */
  method TableLoop(poly: bv32, tab: array<bv32>, start: bv32, input: seq<bv8>) returns (crc: bv32)
    requires Filled(poly, tab[..], 256)
    ensures crc == Bitwise(poly, start, input)
  {
    hide Add, Steps, Shift, Low, Byte, Entry;
    crc := start;
    assert input[0..] == input;
    for a := 0 to |input|
      invariant ByTable(poly, crc, input[a..]) == ByTable(poly, start, input)
    {
      var index := Low(Add(crc, Byte(input[a])));
      EntryOf(poly, index);
      crc := Add(Shift(crc), tab[index as nat]);
      assert input[a..][1..] == input[a + 1..];
    }
    assert input[|input|..] == [];
    TableIsBitwise(poly, start, input);
  }
}

/** The CRC-16. The register of the C code has 16 bits, and those are all it needs. */
module Crc16 {
  import opened CrcRegister

  const POLY: bv32 := 0xA001

  predicate Narrow(c: bv32) { c <= 0xffff }

  lemma NarrowStep(c: bv32)
    requires Narrow(c)
    ensures Narrow(Step(POLY, c))
  {
  }

  lemma NarrowAdd(c: bv32, b: bv8)
    requires Narrow(c)
    ensures Narrow(Add(c, Byte(b)))
  {
  }

  lemma {:induction false} NarrowSteps(c: bv32, n: nat)
    requires Narrow(c)
    ensures Narrow(Steps(POLY, c, n))
    decreases n
  {
    hide Narrow, Step;
    if n > 0 {
      NarrowStep(c);
      NarrowSteps(Step(POLY, c), n - 1);
    }
  }

  lemma {:induction false} NarrowBitwise(c: bv32, input: seq<bv8>)
    requires Narrow(c)
    ensures Narrow(Bitwise(POLY, c, input))
    decreases |input|
  {
    hide Narrow, Steps, Add, Byte;
    if input != [] {
      NarrowAdd(c, input[0]);
      NarrowSteps(Add(c, Byte(input[0])), 8);
      NarrowBitwise(Steps(POLY, Add(c, Byte(input[0])), 8), input[1..]);
    }
  }

  /** crc16: the bitwise loop started at all ones. */
  method Crc16(input: seq<bv8>) returns (crc: bv32)
    ensures crc == Bitwise(POLY, 0xffff, input) && Narrow(crc)
  {
    hide Add, Steps, Byte;
    crc := 0xffff;
    NarrowBitwise(crc, input);
    assert input[0..] == input;
    for i := 0 to |input|
      invariant Bitwise(POLY, crc, input[i..]) == Bitwise(POLY, 0xffff, input)
    {
      crc := EightSteps(POLY, Add(crc, Byte(input[i])));
      assert input[i..][1..] == input[i + 1..];
    }
    assert input[|input|..] == [];
  }

  method FillTable(tab: array<bv32>)
    requires tab.Length == 256
    modifies tab
    ensures Filled(POLY, tab[..], 256)
  {
    hide Entry;
    for i := 0 to 256
      invariant Filled(POLY, tab[..], i)
    {
      var e := BuildEntry(i);
      tab[i] := e;
    }
  }

  /** The body of init_crc16_table: the register starts at zero and the byte is fed in bit by
      bit. */
  method BuildEntry(i: nat) returns (crc: bv32)
    requires i < 256
    ensures crc == Entry(POLY, i)
  {
    crc := 0;
    var c := Byte(i as bv8);
    ghost var b := c;
    NothingYet(b);
    Emptied(i as bv8);
    hide Step, Add, Byte, Steps, Halves, Half;
    for j := 0 to 8
      invariant c == Halves(b, j) && Steps(POLY, Add(crc, c), 8 - j) == Entry(POLY, i)
    {
      Unrolled(Add(crc, c), 8 - j);
      FeedStep(crc, c);
      HalfOnce(b, j);
      crc := FeedOne(crc, c);
      c := Half(c);
    }
    AllFed(crc);
  }

  lemma NothingYet(b: bv32)
    ensures Halves(b, 0) == b && Add(0, b) == b
  {
  }

  lemma Emptied(b: bv8)
    ensures Halves(Byte(b), 8) == 0
  {
    Eighth(Byte(b));
    assert (b as bv32) >> 8 == 0;
    hide Halves;
  }

  lemma {:induction false} HalfOnce(b: bv32, j: nat)
    ensures Half(Halves(b, j)) == Halves(b, j + 1)
    decreases j
  {
    hide Half;
    if j > 0 {
      HalfOnce(Half(b), j - 1);
    }
  }

  lemma AllFed(crc: bv32)
    ensures Steps(POLY, Add(crc, 0), 0) == crc
  {
  }

  lemma Unrolled(c: bv32, n: nat)
    requires n > 0
    ensures Steps(POLY, c, n) == Steps(POLY, Step(POLY, c), n - 1)
  {
  }

  /** One turn: the register and the byte together make one step. */
  function Fed(crc: bv32, c: bv32): bv32 { if Odd(Add(crc, c)) then Add(Half(crc), POLY) else Half(crc) }

  lemma FedParts(crc: bv32, c: bv32)
    ensures Fed(crc, c) == Add(Half(crc), Feedback(POLY, Add(crc, c)))
  {
    hide Odd, Add, Half;
    AddZero(Half(crc));
  }

  lemma FeedStep(crc: bv32, c: bv32)
    ensures Add(Fed(crc, c), Half(c)) == Step(POLY, Add(crc, c))
  {
    hide Add, Fed, Half, Feedback, Step;
    var f := Feedback(POLY, Add(crc, c));
    FedParts(crc, c);
    StepParts(POLY, Add(crc, c));
    HalfLinear(crc, c);
    AddAssoc(Half(crc), f, Half(c));
    AddComm(f, Half(c));
    AddAssoc(Half(crc), Half(c), f);
  }

  method FeedOne(crc0: bv32, c: bv32) returns (crc: bv32)
    ensures crc == Fed(crc0, c)
  {
    if (crc0 ^ c) & 0x0001 != 0 {
      crc := (crc0 >> 1) ^ POLY;
    } else {
      crc := crc0 >> 1;
    }
  }

  /** crc16_tab: the bitwise loop started at zero. */
  method Crc16Tab(input: seq<bv8>) returns (crc: bv32)
    ensures crc == Bitwise(POLY, 0, input) && Narrow(crc)
  {
    var tab := new bv32[256];
    FillTable(tab);
    NarrowBitwise(0, input);
    crc := TableLoop(POLY, tab, 0, input);
  }
}

/** The CRC-32. */
module Crc32 {
  import opened CrcRegister

  const POLY: bv32 := 0xEDB88320
  const WIDE_POLY: bv64 := 0xEDB88320

  /** crc32: the complement of the bitwise loop started at all ones. The register is an
      `unsigned long`, of which only the low 32 bits are ever set. */
  method Crc32(input: seq<bv8>) returns (crc: bv32)
    ensures crc == Add(Bitwise(POLY, 0xffff_ffff, input), 0xffff_ffff)
  {
    hide Add, Steps, Byte, Wide;
    var r: bv64 := 0xffff_ffff;
    ghost var c: bv32 := 0xffff_ffff;
    Ones();
    assert input[0..] == input;
    for i := 0 to |input|
      invariant r == Wide(c) && Bitwise(POLY, c, input[i..]) == Bitwise(POLY, 0xffff_ffff, input)
    {
      r, c := WideByte(r, c, input[i]);
      assert input[i..][1..] == input[i + 1..];
    }
    assert input[|input|..] == [];
    crc := Complement(r, c);
  }

  function Wide(c: bv32): bv64 { c as bv64 }

  lemma Ones()
    ensures Wide(0xffff_ffff) == 0xffff_ffff
  {
  }

  /** One byte in the wide register. */
  method WideByte(r0: bv64, ghost c0: bv32, b: bv8) returns (r: bv64, ghost c: bv32)
    requires r0 == Wide(c0)
    ensures c == Steps(POLY, Add(c0, Byte(b)), 8) && r == Wide(c)
  {
    WideAdd(c0, b);
    r, c := r0 ^ (b as bv64), Add(c0, Byte(b));
    hide Step, Wide, Add, Byte;
    for j := 0 to 8
      invariant r == Wide(c) && Steps(POLY, c, 8 - j) == Steps(POLY, Add(c0, Byte(b)), 8)
    {
      r := WideStep(r, c);
      c := Step(POLY, c);
    }
  }

  lemma WideAdd(c: bv32, b: bv8)
    ensures Wide(c) ^ (b as bv64) == Wide(Add(c, Byte(b)))
  {
  }

  method WideStep(r0: bv64, ghost c: bv32) returns (r: bv64)
    requires r0 == Wide(c)
    ensures r == Wide(Step(POLY, c))
  {
    StepCases(c);
    WideLowBit(c);
    WideHalf(c);
    WideToggle(Half(c));
    hide Wide, Step, Half, Odd, Toggle;
    if r0 & 1 != 0 {
      r := (r0 >> 1) ^ WIDE_POLY;
    } else {
      r := r0 >> 1;
    }
  }

  function Toggle(c: bv32): bv32 { c ^ POLY }

  lemma StepCases(c: bv32)
    ensures Step(POLY, c) == if Odd(c) then Toggle(Half(c)) else Half(c)
  {
  }

  lemma WideLowBit(c: bv32)
    ensures (Wide(c) & 1 != 0) == Odd(c)
  {
  }

  lemma WideHalf(c: bv32)
    ensures Wide(c) >> 1 == Wide(Half(c))
  {
    WideShift(c);
    hide Wide;
  }

  lemma WideShift(c: bv32)
    ensures Wide(c) >> 1 == Wide(c >> 1)
  {
  }

  lemma WideToggle(c: bv32)
    ensures Wide(c) ^ WIDE_POLY == Wide(Toggle(c))
  {
    WideXor(c);
    hide Wide;
  }

  lemma WideXor(c: bv32)
    ensures Wide(c) ^ WIDE_POLY == Wide(c ^ POLY)
  {
  }

  method Complement(r: bv64, ghost c: bv32) returns (crc: bv32)
    requires r == Wide(c)
    ensures crc == Add(c, 0xffff_ffff)
  {
    crc := ((r ^ 0xffff_ffff) & 0xffff_ffff) as bv32;
  }

  method FillTable(tab: array<bv32>)
    requires tab.Length == 256
    modifies tab
    ensures Filled(POLY, tab[..], 256)
  {
    hide Entry;
    for i := 0 to 256
      invariant Filled(POLY, tab[..], i)
    {
      var e := BuildEntry(i);
      tab[i] := e;
    }
  }

  /** The body of init_crc32_table. */
  method BuildEntry(i: nat) returns (c: bv32)
    requires i < 256
    ensures c == Entry(POLY, i)
  {
    hide Steps;
    c := EightSteps(POLY, Byte(i as bv8));
  }

  /** crc32_tab: the bitwise loop started at zero. */
  method Crc32Tab(input: seq<bv8>) returns (crc: bv32)
    ensures crc == Bitwise(POLY, 0, input)
  {
    var tab := new bv32[256];
    FillTable(tab);
    crc := TableLoop(POLY, tab, 0, input);
  }
}

/** What the CRCs of "123456789" are known to be. */
module CrcExamples {
  import opened CrcRegister
  import Crc16
  import Crc32

  const DIGITS: seq<bv8> := [0x31, 0x32, 0x33, 0x34, 0x35, 0x36, 0x37, 0x38, 0x39]

  /** Eight bit steps, one after the other. */
  function Eight(poly: bv32, c: bv32): bv32 {
    Step(poly, Step(poly, Step(poly, Step(poly, Step(poly, Step(poly, Step(poly, Step(poly, c))))))))
  }

  lemma EightIs(poly: bv32, c: bv32)
    ensures Steps(poly, c, 8) == Eight(poly, c)
  {
    hide Step;
  }

  lemma OneByte(poly: bv32, c: bv32, b: bv8, rest: seq<bv8>, next: bv32)
    requires next == Eight(poly, c ^ (b as bv32))
    ensures Bitwise(poly, c, [b] + rest) == Bitwise(poly, next, rest)
  {
    hide Eight, Step;
    EightIs(poly, c ^ (b as bv32));
    assert ([b] + rest)[1..] == rest;
  }

  lemma Suffixes()
    ensures forall i :: 0 <= i < 9 ==> DIGITS[i..] == [DIGITS[i]] + DIGITS[i + 1..]
    ensures DIGITS[0..] == DIGITS && DIGITS[9..] == []
  {
  }

  lemma Nothing(poly: bv32, c: bv32)
    ensures Bitwise(poly, c, []) == c
  {
  }

  /** crc16: CRC-16/MODBUS */
  lemma Crc16Check()
    ensures Bitwise(Crc16.POLY, 0xffff, DIGITS) == 0x4b37
  {
    hide Bitwise;
    Suffixes();
    OneByte(Crc16.POLY, 0xffff, 0x31, DIGITS[1..], 0x947e);
    OneByte(Crc16.POLY, 0x947e, 0x32, DIGITS[2..], 0xf595);
    OneByte(Crc16.POLY, 0xf595, 0x33, DIGITS[3..], 0x7a75);
    OneByte(Crc16.POLY, 0x7a75, 0x34, DIGITS[4..], 0x30ba);
    OneByte(Crc16.POLY, 0x30ba, 0x35, DIGITS[5..], 0xa471);
    OneByte(Crc16.POLY, 0xa471, 0x36, DIGITS[6..], 0x32e4);
    OneByte(Crc16.POLY, 0x32e4, 0x37, DIGITS[7..], 0x9d73);
    OneByte(Crc16.POLY, 0x9d73, 0x38, DIGITS[8..], 0x37dd);
    OneByte(Crc16.POLY, 0x37dd, 0x39, DIGITS[9..], 0x4b37);
    Nothing(Crc16.POLY, 0x4b37);
  }

  /** crc16_tab: CRC-16/ARC */
  lemma Crc16TabCheck()
    ensures Bitwise(Crc16.POLY, 0x0, DIGITS) == 0xbb3d
  {
    hide Bitwise;
    Suffixes();
    OneByte(Crc16.POLY, 0x0, 0x31, DIGITS[1..], 0xd4c1);
    OneByte(Crc16.POLY, 0xd4c1, 0x32, DIGITS[2..], 0x4594);
    OneByte(Crc16.POLY, 0x4594, 0x33, DIGITS[3..], 0xba04);
    OneByte(Crc16.POLY, 0xba04, 0x34, DIGITS[4..], 0x14ba);
    OneByte(Crc16.POLY, 0x14ba, 0x35, DIGITS[5..], 0xa455);
    OneByte(Crc16.POLY, 0xa455, 0x36, DIGITS[6..], 0x29e4);
    OneByte(Crc16.POLY, 0x29e4, 0x37, DIGITS[7..], 0x9d68);
    OneByte(Crc16.POLY, 0x9d68, 0x38, DIGITS[8..], 0x3c9d);
    OneByte(Crc16.POLY, 0x3c9d, 0x39, DIGITS[9..], 0xbb3d);
    Nothing(Crc16.POLY, 0xbb3d);
  }

  /** crc32: CRC-32 */
  lemma Crc32Check()
    ensures Add(Bitwise(Crc32.POLY, 0xffffffff, DIGITS), 0xffffffff) == 0xcbf43926
  {
    hide Bitwise;
    Suffixes();
    OneByte(Crc32.POLY, 0xffffffff, 0x31, DIGITS[1..], 0x7c231048);
    OneByte(Crc32.POLY, 0x7c231048, 0x32, DIGITS[2..], 0xb0acbb32);
    OneByte(Crc32.POLY, 0xb0acbb32, 0x33, DIGITS[3..], 0x77b79c2d);
    OneByte(Crc32.POLY, 0x77b79c2d, 0x34, DIGITS[4..], 0x641c1f5c);
    OneByte(Crc32.POLY, 0x641c1f5c, 0x35, DIGITS[5..], 0x340ac5e3);
    OneByte(Crc32.POLY, 0x340ac5e3, 0x36, DIGITS[6..], 0xf68d2c9e);
    OneByte(Crc32.POLY, 0xf68d2c9e, 0x37, DIGITS[7..], 0xaffc9660);
    OneByte(Crc32.POLY, 0xaffc9660, 0x38, DIGITS[8..], 0x651f2550);
    OneByte(Crc32.POLY, 0x651f2550, 0x39, DIGITS[9..], 0x340bc6d9);
    Nothing(Crc32.POLY, 0x340bc6d9);
  }

  /** crc32_tab */
  lemma Crc32TabCheck()
    ensures Bitwise(Crc32.POLY, 0x0, DIGITS) == 0x2dfd2d88
  {
    hide Bitwise;
    Suffixes();
    OneByte(Crc32.POLY, 0x0, 0x31, DIGITS[1..], 0x51de003a);
    OneByte(Crc32.POLY, 0x51de003a, 0x32, DIGITS[2..], 0xe8a5632);
    OneByte(Crc32.POLY, 0xe8a5632, 0x33, DIGITS[3..], 0x7709bac0);
    OneByte(Crc32.POLY, 0x7709bac0, 0x34, DIGITS[4..], 0xbaa73fbf);
    OneByte(Crc32.POLY, 0xbaa73fbf, 0x35, DIGITS[5..], 0xdd7cd01);
    OneByte(Crc32.POLY, 0xdd7cd01, 0x36, DIGITS[6..], 0xb8b072c2);
    OneByte(Crc32.POLY, 0xb8b072c2, 0x37, DIGITS[7..], 0xcd6fb6e1);
    OneByte(Crc32.POLY, 0xcd6fb6e1, 0x38, DIGITS[8..], 0xffc205c6);
    OneByte(Crc32.POLY, 0xffc205c6, 0x39, DIGITS[9..], 0x2dfd2d88);
    Nothing(Crc32.POLY, 0x2dfd2d88);
  }
}

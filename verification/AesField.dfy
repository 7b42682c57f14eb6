/** aes.c: arithmetic in GF(2^8) and on four-byte words (section 4 of FIPS 197). */
module AesField {

  /** gadd and gsub */
  function Add(a: bv8, b: bv8): bv8 { a ^ b }

  function Half(b: bv8): bv8 { b >> 1 }

  /** Multiplication by x modulo x^8 + x^4 + x^3 + x + 1. */
  function XTime(a: bv8): bv8 {
    if a & 0x80 != 0 then (a << 1) ^ 0x1b else a << 1
  }

  /** `a` times the lowest coefficient of `b`. */
  function Pick(a: bv8, b: bv8): bv8 { if b & 1 != 0 then a else 0 }

  /** What `n` turns of gmult's loop add up. */
  function Steps(a: bv8, b: bv8, n: nat): bv8
    decreases n
  {
    if n == 0 then 0 else Add(Pick(a, b), Steps(XTime(a), Half(b), n - 1))
  }

  function Mul(a: bv8, b: bv8): bv8 { Steps(a, b, 8) }

  /** gmult */
  method GMult(a0: bv8, b0: bv8) returns (p: bv8)
    ensures p == Mul(a0, b0)
  {
    var a, b, i: nat := a0, b0, 0;
    p := 0;
    hide *;
    MulIs(a, b);
    while i < 8
      invariant i <= 8 && Add(p, Steps(a, b, 8 - i)) == Mul(a0, b0)
    {
      OneTurn(p, a, b, 8 - i);
      p := AddTo(p, a, b);
      a := TimesX(a);
      b := Halve(b);
      i := i + 1;
    }
    NoTurn(p, a, b);
  }

  lemma MulIs(a: bv8, b: bv8)
    ensures Add(0, Steps(a, b, 8)) == Mul(a, b)
  {
    hide Steps;
    AddZero(Mul(a, b));
  }

  lemma OneTurn(p: bv8, a: bv8, b: bv8, n: nat)
    requires n > 0
    ensures Add(Add(p, Pick(a, b)), Steps(XTime(a), Half(b), n - 1)) == Add(p, Steps(a, b, n))
  {
    hide Add, Half, XTime, Pick;
    AddAssoc(p, Pick(a, b), Steps(XTime(a), Half(b), n - 1));
  }

  lemma NoTurn(p: bv8, a: bv8, b: bv8)
    ensures Add(p, Steps(a, b, 0)) == p
  {
    hide Add;
    AddZero(p);
  }

  /** The conditional addition, the shift with reduction, and the shift of the multiplier
      in gmult's loop. */
  method AddTo(p0: bv8, a: bv8, b: bv8) returns (p: bv8)
    ensures p == Add(p0, Pick(a, b))
  {
    p := p0;
    AddZero(p);
    if b & 1 != 0 {
      p := p ^ a;
    }
  }

  method TimesX(a0: bv8) returns (a: bv8)
    ensures a == XTime(a0)
  {
    var hbs := a0 & 0x80;
    a := a0 << 1;
    if hbs != 0 {
      a := a ^ 0x1b;
    }
  }

  method Halve(b: bv8) returns (h: bv8)
    ensures h == Half(b)
  {
    h := b >> 1;
  }

  // ---------- addition ----------

  lemma AddAssoc(a: bv8, b: bv8, c: bv8)
    ensures Add(Add(a, b), c) == Add(a, Add(b, c))
  {
  }

  lemma AddZero(a: bv8)
    ensures Add(a, 0) == a && Add(0, a) == a
  {
  }

  lemma AddSelf(a: bv8)
    ensures Add(a, a) == 0
  {
  }

  lemma AddComm(a: bv8, b: bv8)
    ensures Add(a, b) == Add(b, a)
  {
  }

  lemma Swap(a: bv8, b: bv8, c: bv8, d: bv8)
    ensures Add(Add(a, b), Add(c, d)) == Add(Add(a, c), Add(b, d))
  {
    hide Add;
    AddAssoc(a, b, Add(c, d));
    AddAssoc(b, c, d);
    AddComm(b, c);
    AddAssoc(c, b, d);
    AddAssoc(a, c, Add(b, d));
  }

  // ---------- Mul is bilinear ----------

  function Shifted(a: bv8): bv8 { a << 1 }

  function Overflow(a: bv8): bv8 { if a & 0x80 != 0 then 0x1b else 0 }

  lemma XTimeParts(a: bv8)
    ensures XTime(a) == Add(Shifted(a), Overflow(a))
  {
  }

  lemma OverflowLinear(a: bv8, b: bv8)
    ensures Overflow(Add(a, b)) == Add(Overflow(a), Overflow(b))
  {
  }

  lemma ShiftLinear(a: bv8, b: bv8)
    ensures Shifted(Add(a, b)) == Add(Shifted(a), Shifted(b))
  {
  }

  lemma HalfLinear(a: bv8, b: bv8)
    ensures Half(Add(a, b)) == Add(Half(a), Half(b))
  {
  }

  lemma XTimeLinear(a: bv8, b: bv8)
    ensures XTime(Add(a, b)) == Add(XTime(a), XTime(b))
  {
    hide Add, Shifted, XTime, Overflow;
    XTimeParts(a);
    XTimeParts(b);
    XTimeParts(Add(a, b));
    ShiftLinear(a, b);
    OverflowLinear(a, b);
    Swap(Shifted(a), Shifted(b), Overflow(a), Overflow(b));
  }

  lemma PickLeft(a: bv8, b: bv8, c: bv8)
    ensures Pick(Add(a, b), c) == Add(Pick(a, c), Pick(b, c))
  {
    AddZero(0);
  }

  lemma PickRight(a: bv8, b: bv8, c: bv8)
    ensures Pick(a, Add(b, c)) == Add(Pick(a, b), Pick(a, c))
  {
  }

  lemma PickXTime(a: bv8, b: bv8)
    ensures Pick(XTime(a), b) == XTime(Pick(a, b))
  {
  }

  lemma {:induction false} StepsLeft(a: bv8, b: bv8, c: bv8, n: nat)
    ensures Steps(Add(a, b), c, n) == Add(Steps(a, c, n), Steps(b, c, n))
    decreases n
  {
    hide Add, Half, Pick, XTime;
    if n > 0 {
      XTimeLinear(a, b);
      StepsLeft(XTime(a), XTime(b), Half(c), n - 1);
      PickLeft(a, b, c);
      Swap(Pick(a, c), Pick(b, c), Steps(XTime(a), Half(c), n - 1), Steps(XTime(b), Half(c), n - 1));
    } else {
      AddZero(0);
    }
  }

  lemma {:induction false} StepsRight(a: bv8, b: bv8, c: bv8, n: nat)
    ensures Steps(a, Add(b, c), n) == Add(Steps(a, b, n), Steps(a, c, n))
    decreases n
  {
    hide Add, Half, Pick, XTime;
    if n > 0 {
      HalfLinear(b, c);
      StepsRight(XTime(a), Half(b), Half(c), n - 1);
      PickRight(a, b, c);
      Swap(Pick(a, b), Pick(a, c), Steps(XTime(a), Half(b), n - 1), Steps(XTime(a), Half(c), n - 1));
    } else {
      AddZero(0);
    }
  }

  lemma {:induction false} StepsXTime(a: bv8, b: bv8, n: nat)
    ensures Steps(XTime(a), b, n) == XTime(Steps(a, b, n))
    decreases n
  {
    if n > 0 {
      hide Add, Half, Pick, XTime;
      StepsXTime(XTime(a), Half(b), n - 1);
      PickXTime(a, b);
      XTimeLinear(Pick(a, b), Steps(XTime(a), Half(b), n - 1));
    }
  }

  // ---------- Mul is commutative and associative ----------

  lemma {:induction false} StepsZero(a: bv8, b: bv8, n: nat)
    ensures Steps(0, b, n) == 0 && Steps(a, 0, n) == 0
    decreases n
  {
    if n > 0 {
      assert XTime(0) == 0 && Half(0) == 0 && Pick(0, b) == 0 && Pick(a, 0) == 0;
      hide Add, Half, Pick, XTime;
      StepsZero(0, Half(b), n - 1);
      StepsZero(XTime(a), 0, n - 1);
      AddZero(0);
    }
  }

  /** `b` has at most `n` significant bits. */
  predicate Short(b: bv8, n: nat)
    decreases n
  {
    if n == 0 then b == 0 else Short(Half(b), n - 1)
  }

  lemma {:induction false} StepsShort(a: bv8, b: bv8, n: nat)
    requires Short(b, n)
    ensures Steps(a, b, n + 1) == Steps(a, b, n)
    decreases n
  {
    hide Add, Half, Pick, XTime;
    if n > 0 {
      StepsShort(XTime(a), Half(b), n - 1);
    } else {
      StepsZero(a, 0, 1);
    }
  }

  function Low(b: bv8): bv8 { b & 0x7f }

  function High(b: bv8): bv8 { b & 0x80 }

  lemma LowHigh(b: bv8)
    ensures Add(Low(b), High(b)) == b && Half(Shifted(b)) == Low(b)
    ensures (High(b) == 0 && Overflow(b) == 0) || (High(b) == 0x80 && Overflow(b) == 0x1b)
  {
  }

  lemma LowShort(b: bv8)
    ensures Short(Low(b), 7)
  {
    assert ((b & 0x7f) >> 1) == (b >> 1) & 0x3f;
    assert ((b >> 1) & 0x3f) >> 1 == (b >> 2) & 0x1f;
    assert ((b >> 2) & 0x1f) >> 1 == (b >> 3) & 0x0f;
    assert ((b >> 3) & 0x0f) >> 1 == (b >> 4) & 0x07;
    assert ((b >> 4) & 0x07) >> 1 == (b >> 5) & 0x03;
    assert ((b >> 5) & 0x03) >> 1 == (b >> 6) & 0x01;
    assert ((b >> 6) & 0x01) >> 1 == 0;
  }

  /** x^8, and x^4 + x^3 + x + 1, as multipliers */
  lemma TopBits(a: bv8)
    ensures Steps(XTime(a), 0x80, 8) == Steps(a, 0x1b, 8)
  {
    var a1 := XTime(a);
    var a3 := XTime(XTime(a1));
    hide *;
    TimesEighty(a1);
    Modulus(a);
    OddStep(a, 0x1b, 0x0d, 8);
    OddStep(a1, 0x0d, 6, 7);
    EvenStep(XTime(a1), 6, 3, 6);
    OddStep(a3, 3, 1, 5);
    OddStep(XTime(a3), 1, 0, 4);
    StepsZero(XTime(XTime(a3)), 0, 3);
    AddZero(XTime(a3));
  }

  lemma OddStep(a: bv8, b: bv8, h: bv8, n: nat)
    requires n > 0 && b & 1 == 1 && b >> 1 == h
    ensures Steps(a, b, n) == Add(a, Steps(XTime(a), h, n - 1))
  {
    assert Pick(a, b) == a && Half(b) == h;
    hide Add, XTime, Pick, Half;
  }

  lemma EvenStep(a: bv8, b: bv8, h: bv8, n: nat)
    requires n > 0 && b & 1 == 0 && b >> 1 == h
    ensures Steps(a, b, n) == Steps(XTime(a), h, n - 1)
  {
    assert Pick(a, b) == 0 && Half(b) == h;
    hide Add, XTime, Pick, Half;
    AddZero(Steps(XTime(a), h, n - 1));
  }

  lemma TimesEighty(a: bv8)
    ensures Steps(a, 0x80, 8) == XTime(XTime(XTime(XTime(XTime(XTime(XTime(a)))))))
  {
    var a4 := XTime(XTime(XTime(XTime(a))));
    var a7 := XTime(XTime(XTime(a4)));
    hide *;
    EvenStep(a, 0x80, 0x40, 8);
    EvenStep(XTime(a), 0x40, 0x20, 7);
    EvenStep(XTime(XTime(a)), 0x20, 0x10, 6);
    EvenStep(XTime(XTime(XTime(a))), 0x10, 8, 5);
    EvenStep(a4, 8, 4, 4);
    EvenStep(XTime(a4), 4, 2, 3);
    EvenStep(XTime(XTime(a4)), 2, 1, 2);
    OddStep(a7, 1, 0, 1);
    NoSteps(XTime(a7), 0);
    AddZero(a7);
  }

  /** The modulus: x^8 is x^4 + x^3 + x + 1. */
  lemma Modulus(a: bv8)
    ensures XTime(XTime(XTime(XTime(XTime(XTime(XTime(XTime(a)))))))) ==
            Add(a, Add(XTime(a), Add(XTime(XTime(XTime(a))), XTime(XTime(XTime(XTime(a)))))))
  {
  }

  lemma MulXTime(a: bv8, b: bv8)
    ensures Mul(a, XTime(b)) == XTime(Mul(a, b))
  {
    hide Add, Half, Pick, XTime, Shifted, Overflow, Low, High, Short;
    var x := XTime(a);
    StepsXTime(a, b, 8);
    LowHigh(b);
    StepsRight(x, Low(b), High(b), 8);
    LowShort(b);
    StepsShort(x, Low(b), 7);
    XTimeParts(b);
    StepsRight(a, Shifted(b), Overflow(b), 8);
    ShiftedEven(a, b);
    if High(b) == 0 {
      StepsZero(x, 0, 8);
      StepsZero(a, 0, 8);
    } else {
      TopBits(a);
    }
  }

  lemma ShiftedEven(a: bv8, b: bv8)
    ensures Steps(a, Shifted(b), 8) == Steps(XTime(a), Half(Shifted(b)), 7)
  {
    assert Pick(a, Shifted(b)) == 0;
    hide Add, Half, Pick, XTime, Shifted;
    AddZero(Steps(XTime(a), Half(Shifted(b)), 7));
  }

  lemma {:induction false} StepsAssoc(k: bv8, m: bv8, c: bv8, n: nat)
    ensures Mul(k, Steps(m, c, n)) == Steps(Mul(k, m), c, n)
    decreases n
  {
    hide *;
    if n == 0 {
      MulNothing(k);
      NoSteps(m, c);
      NoSteps(Mul(k, m), c);
    } else {
      var rest := Steps(XTime(m), Half(c), n - 1);
      NextStep(m, c, n);
      MulRight(k, Pick(m, c), rest);
      MulPick(k, m, c);
      StepsAssoc(k, XTime(m), Half(c), n - 1);
      MulXTime(k, m);
      NextStep(Mul(k, m), c, n);
    }
  }

  lemma NoSteps(a: bv8, b: bv8)
    ensures Steps(a, b, 0) == 0
  {
  }

  lemma NextStep(a: bv8, b: bv8, n: nat)
    requires n > 0
    ensures Steps(a, b, n) == Add(Pick(a, b), Steps(XTime(a), Half(b), n - 1))
  {
    hide Add, Half, XTime, Pick;
  }

  lemma MulNothing(k: bv8)
    ensures Mul(k, 0) == 0 && Mul(0, k) == 0
  {
    hide Steps;
    StepsZero(k, k, 8);
  }

  lemma MulLeft(a: bv8, b: bv8, c: bv8)
    ensures Mul(Add(a, b), c) == Add(Mul(a, c), Mul(b, c))
  {
    hide Steps, Add;
    StepsLeft(a, b, c, 8);
  }

  lemma MulRight(a: bv8, b: bv8, c: bv8)
    ensures Mul(a, Add(b, c)) == Add(Mul(a, b), Mul(a, c))
  {
    hide Steps, Add;
    StepsRight(a, b, c, 8);
  }

  /** Multiplying what was picked is picking from the product. */
  lemma MulPick(k: bv8, m: bv8, c: bv8)
    ensures Mul(k, Pick(m, c)) == Pick(Mul(k, m), c) && Mul(Pick(m, c), k) == Pick(Mul(m, k), c)
  {
    hide Mul;
    MulNothing(k);
  }

  lemma MulAssoc(a: bv8, b: bv8, c: bv8)
    ensures Mul(a, Mul(b, c)) == Mul(Mul(a, b), c)
  {
    StepsAssoc(a, b, c, 8);
  }

  lemma MulOneLeft(c: bv8)
    ensures Mul(1, c) == c
  {
    hide Add, Half, Pick, XTime;
    Digits(c);
    ConstantPowers();
    AddZero(Pick(0x80, Half(Half(Half(Half(Half(Half(Half(c)))))))));
  }

  lemma ConstantPowers()
    ensures XTime(1) == 2 && XTime(2) == 4 && XTime(4) == 8 && XTime(8) == 0x10
    ensures XTime(0x10) == 0x20 && XTime(0x20) == 0x40 && XTime(0x40) == 0x80
  {
  }

  /** A byte is the sum of its binary digits. */
  lemma Digits(c: bv8)
    ensures var h1 := Half(c);
            var h2 := Half(h1);
            var h3 := Half(h2);
            var h4 := Half(h3);
            var h5 := Half(h4);
            var h6 := Half(h5);
            var h7 := Half(h6);
            c == Add(Pick(1, c), Add(Pick(2, h1), Add(Pick(4, h2), Add(Pick(8, h3),
                 Add(Pick(0x10, h4), Add(Pick(0x20, h5), Add(Pick(0x40, h6), Pick(0x80, h7))))))))
  {
  }

  lemma {:induction false} StepsLeftAssoc(m: bv8, c: bv8, b: bv8, n: nat)
    ensures Mul(Steps(m, c, n), b) == Steps(Mul(m, b), c, n)
    decreases n
  {
    hide *;
    if n == 0 {
      MulNothing(b);
      NoSteps(m, c);
      NoSteps(Mul(m, b), c);
    } else {
      var rest := Steps(XTime(m), Half(c), n - 1);
      NextStep(m, c, n);
      MulLeft(Pick(m, c), rest, b);
      MulPick(b, m, c);
      StepsLeftAssoc(XTime(m), Half(c), b, n - 1);
      MulXTimeLeft(m, b);
      NextStep(Mul(m, b), c, n);
    }
  }

  lemma MulXTimeLeft(m: bv8, b: bv8)
    ensures Mul(XTime(m), b) == XTime(Mul(m, b))
  {
    hide Steps, XTime;
    StepsXTime(m, b, 8);
  }

  lemma MulComm(a: bv8, b: bv8)
    ensures Mul(a, b) == Mul(b, a)
  {
    hide Steps;
    MulOneLeft(a);
    StepsLeftAssoc(1, a, b, 8);
    MulOneLeft(b);
  }

  // ---------- four-byte words: polynomials modulo x^4 + 1 ----------

  datatype Word = Word(c0: bv8, c1: bv8, c2: bv8, c3: bv8)

  function Sum4(a: bv8, b: bv8, c: bv8, d: bv8): bv8 { Add(Add(a, b), Add(c, d)) }

  /** One coefficient of a product: the four pairs whose degrees add up to it, modulo 4. */
  function Row(a0: bv8, a1: bv8, a2: bv8, a3: bv8, b: Word): bv8 {
    Sum4(Mul(a0, b.c0), Mul(a3, b.c1), Mul(a2, b.c2), Mul(a1, b.c3))
  }

  function Product(a: Word, b: Word): Word {
    Word(Row(a.c0, a.c1, a.c2, a.c3, b), Row(a.c1, a.c2, a.c3, a.c0, b),
         Row(a.c2, a.c3, a.c0, a.c1, b), Row(a.c3, a.c0, a.c1, a.c2, b))
  }

  /** coef_mult */
  method CoefMult(a: Word, b: Word) returns (d: Word)
    ensures d == Product(a, b)
  {
    var d0 := CoefRow(a.c0, a.c1, a.c2, a.c3, b);
    var d1 := CoefRow(a.c1, a.c2, a.c3, a.c0, b);
    var d2 := CoefRow(a.c2, a.c3, a.c0, a.c1, b);
    var d3 := CoefRow(a.c3, a.c0, a.c1, a.c2, b);
    d := Word(d0, d1, d2, d3);
  }

  method CoefRow(a0: bv8, a1: bv8, a2: bv8, a3: bv8, b: Word) returns (d: bv8)
    ensures d == Row(a0, a1, a2, a3, b)
  {
    hide Mul;
    var m0 := GMult(a0, b.c0);
    var m1 := GMult(a3, b.c1);
    var m2 := GMult(a2, b.c2);
    var m3 := GMult(a1, b.c3);
    AddAssoc(Add(m0, m1), m2, m3);
    hide Add;
    d := Add(Add(Add(m0, m1), m2), m3);
  }

  lemma Sum4Linear(a: bv8, b: bv8, c: bv8, d: bv8, e: bv8, f: bv8, g: bv8, h: bv8)
    ensures Add(Sum4(a, b, c, d), Sum4(e, f, g, h)) == Sum4(Add(a, e), Add(b, f), Add(c, g), Add(d, h))
  {
    hide Add;
    Swap(Add(a, b), Add(c, d), Add(e, f), Add(g, h));
    Swap(a, b, e, f);
    Swap(c, d, g, h);
  }

  lemma MulSum4(k: bv8, a: bv8, b: bv8, c: bv8, d: bv8)
    ensures Mul(k, Sum4(a, b, c, d)) == Sum4(Mul(k, a), Mul(k, b), Mul(k, c), Mul(k, d))
    ensures Mul(Sum4(a, b, c, d), k) == Sum4(Mul(a, k), Mul(b, k), Mul(c, k), Mul(d, k))
  {
    hide Add, Steps;
    StepsRight(k, Add(a, b), Add(c, d), 8);
    StepsRight(k, a, b, 8);
    StepsRight(k, c, d, 8);
    StepsLeft(Add(a, b), Add(c, d), k, 8);
    StepsLeft(a, b, k, 8);
    StepsLeft(c, d, k, 8);
  }

  /** A sum of four products with a word's coefficients. */
  function Dot(p: bv8, q: bv8, r: bv8, s: bv8, c: Word): bv8 {
    Sum4(Mul(p, c.c0), Mul(q, c.c1), Mul(r, c.c2), Mul(s, c.c3))
  }

  lemma DotAdd(p: Word, q: Word, c: Word)
    ensures Add(Dot(p.c0, p.c1, p.c2, p.c3, c), Dot(q.c0, q.c1, q.c2, q.c3, c)) ==
            Dot(Add(p.c0, q.c0), Add(p.c1, q.c1), Add(p.c2, q.c2), Add(p.c3, q.c3), c)
  {
    hide Add, Steps, Sum4;
    Sum4Linear(Mul(p.c0, c.c0), Mul(p.c1, c.c1), Mul(p.c2, c.c2), Mul(p.c3, c.c3),
               Mul(q.c0, c.c0), Mul(q.c1, c.c1), Mul(q.c2, c.c2), Mul(q.c3, c.c3));
    StepsLeft(p.c0, q.c0, c.c0, 8);
    StepsLeft(p.c1, q.c1, c.c1, 8);
    StepsLeft(p.c2, q.c2, c.c2, 8);
    StepsLeft(p.c3, q.c3, c.c3, 8);
  }

  lemma DotScale(k: bv8, p: Word, c: Word)
    ensures Mul(k, Dot(p.c0, p.c1, p.c2, p.c3, c)) ==
            Dot(Mul(k, p.c0), Mul(k, p.c1), Mul(k, p.c2), Mul(k, p.c3), c)
  {
    hide Add, Steps, Sum4;
    MulSum4(k, Mul(p.c0, c.c0), Mul(p.c1, c.c1), Mul(p.c2, c.c2), Mul(p.c3, c.c3));
    MulAssoc(k, p.c0, c.c0);
    MulAssoc(k, p.c1, c.c1);
    MulAssoc(k, p.c2, c.c2);
    MulAssoc(k, p.c3, c.c3);
  }

  /** One coefficient of a * (b * c), written as one of (a * b) * c. */
  lemma RowAssoc(a0: bv8, a1: bv8, a2: bv8, a3: bv8, b: Word, c: Word)
    ensures Row(a0, a1, a2, a3, Product(b, c)) ==
            Dot(Row(a0, a1, a2, a3, b), Row(a3, a0, a1, a2, b), Row(a2, a3, a0, a1, b), Row(a1, a2, a3, a0, b), c)
  {
    hide Add, Mul, Sum4;
    var r0, r1 := Word(b.c0, b.c3, b.c2, b.c1), Word(b.c1, b.c0, b.c3, b.c2);
    var r2, r3 := Word(b.c2, b.c1, b.c0, b.c3), Word(b.c3, b.c2, b.c1, b.c0);
    DotScale(a0, r0, c);
    DotScale(a3, r1, c);
    DotScale(a2, r2, c);
    DotScale(a1, r3, c);
    DotSum4(Scale(a0, r0), Scale(a3, r1), Scale(a2, r2), Scale(a1, r3), c);
    Rotate(Mul(a0, b.c3), Mul(a3, b.c0), Mul(a2, b.c1), Mul(a1, b.c2));
    Rotate(Mul(a0, b.c2), Mul(a3, b.c3), Mul(a2, b.c0), Mul(a1, b.c1));
    Rotate(Mul(a0, b.c1), Mul(a3, b.c2), Mul(a2, b.c3), Mul(a1, b.c0));
  }

  lemma Rotate(a: bv8, b: bv8, c: bv8, d: bv8)
    ensures Sum4(a, b, c, d) == Sum4(b, c, d, a) == Sum4(c, d, a, b) == Sum4(d, a, b, c)
  {
    hide Add;
    AddComm(Add(a, b), Add(c, d));
    AddComm(Add(b, c), Add(d, a));
    AddComm(a, b);
    AddComm(d, a);
    Swap(b, a, c, d);
    AddComm(a, d);
  }

  function Scale(k: bv8, p: Word): Word { Word(Mul(k, p.c0), Mul(k, p.c1), Mul(k, p.c2), Mul(k, p.c3)) }

  lemma DotSum4(p: Word, q: Word, r: Word, s: Word, c: Word)
    ensures Sum4(Dot(p.c0, p.c1, p.c2, p.c3, c), Dot(q.c0, q.c1, q.c2, q.c3, c),
                 Dot(r.c0, r.c1, r.c2, r.c3, c), Dot(s.c0, s.c1, s.c2, s.c3, c)) ==
            Dot(Sum4(p.c0, q.c0, r.c0, s.c0), Sum4(p.c1, q.c1, r.c1, s.c1),
                Sum4(p.c2, q.c2, r.c2, s.c2), Sum4(p.c3, q.c3, r.c3, s.c3), c)
  {
    hide Add, Mul, Dot;
    DotAdd(p, q, c);
    DotAdd(r, s, c);
    DotAdd(Plus(p, q), Plus(r, s), c);
  }

  function Plus(p: Word, q: Word): Word {
    Word(Add(p.c0, q.c0), Add(p.c1, q.c1), Add(p.c2, q.c2), Add(p.c3, q.c3))
  }

  lemma ProductAssoc(a: Word, b: Word, c: Word)
    ensures Product(a, Product(b, c)) == Product(Product(a, b), c)
  {
    hide Row, Dot;
    RowAssoc(a.c0, a.c1, a.c2, a.c3, b, c);
    RowAssoc(a.c1, a.c2, a.c3, a.c0, b, c);
    RowAssoc(a.c2, a.c3, a.c0, a.c1, b, c);
    RowAssoc(a.c3, a.c0, a.c1, a.c2, b, c);
    var d := Product(a, b);
    DotRow(d.c0, d.c3, d.c2, d.c1, c);
    DotRow(d.c1, d.c0, d.c3, d.c2, c);
    DotRow(d.c2, d.c1, d.c0, d.c3, c);
    DotRow(d.c3, d.c2, d.c1, d.c0, c);
  }

  lemma DotRow(p: bv8, q: bv8, r: bv8, s: bv8, c: Word)
    ensures Dot(p, q, r, s, c) == Row(p, s, r, q, c)
  {
    hide Add, Mul, Sum4;
  }

  const ONE := Word(1, 0, 0, 0)

  lemma ProductOne(c: Word)
    ensures Product(ONE, c) == c
  {
    hide Add, Steps;
    MulOneLeft(c.c0);
    MulOneLeft(c.c1);
    MulOneLeft(c.c2);
    MulOneLeft(c.c3);
    ZeroTimes(c.c0);
    ZeroTimes(c.c1);
    ZeroTimes(c.c2);
    ZeroTimes(c.c3);
    AddZero(0);
    AddZero(c.c0);
    AddZero(c.c1);
    AddZero(c.c2);
    AddZero(c.c3);
  }

  lemma ZeroTimes(c: bv8)
    ensures Mul(0, c) == 0
  {
    StepsZero(0, c, 8);
  }

  /** The polynomials of mix_columns and inv_mix_columns. */
  const MIX := Word(0x02, 0x01, 0x01, 0x03)
  const INV_MIX := Word(0x0e, 0x09, 0x0d, 0x0b)

  /** {0b}x^3 + {0d}x^2 + {09}x + {0e} is the inverse of {03}x^3 + {01}x^2 + {01}x + {02}. */
  lemma MixInverse()
    ensures Product(INV_MIX, MIX) == ONE
  {
    SmallProducts();
    hide Mul;
  }

  lemma SmallProducts()
    ensures Mul(0x0e, 1) == 0x0e && Mul(0x0e, 2) == 0x1c && Mul(0x0e, 3) == 0x12
    ensures Mul(0x09, 1) == 0x09 && Mul(0x09, 2) == 0x12 && Mul(0x09, 3) == 0x1b
    ensures Mul(0x0d, 1) == 0x0d && Mul(0x0d, 2) == 0x1a && Mul(0x0d, 3) == 0x17
    ensures Mul(0x0b, 1) == 0x0b && Mul(0x0b, 2) == 0x16 && Mul(0x0b, 3) == 0x1d
  {
    Times123(0x0e);
    Times123(0x09);
    Times123(0x0d);
    Times123(0x0b);
    hide Mul;
  }

  lemma Times123(a: bv8)
    ensures Mul(a, 1) == a && Mul(a, 2) == XTime(a) && Mul(a, 3) == Add(a, XTime(a))
  {
    hide Steps, Add, XTime;
    TimesOne(a, 8);
    EvenStep(a, 2, 1, 8);
    TimesOne(XTime(a), 7);
    OddStep(a, 3, 1, 8);
  }

  lemma TimesOne(a: bv8, n: nat)
    requires n > 0
    ensures Steps(a, 1, n) == a
  {
    hide Steps, Add, XTime;
    OddStep(a, 1, 0, n);
    StepsZero(XTime(a), 0, n - 1);
    AddZero(a);
  }

  /** Mixing a column can be undone. */
  lemma UnmixColumn(col: Word)
    ensures Product(INV_MIX, Product(MIX, col)) == col
  {
    ProductAssoc(INV_MIX, MIX, col);
    MixInverse();
    hide Product;
    ProductOne(col);
  }
}

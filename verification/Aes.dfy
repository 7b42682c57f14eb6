/** aes.c: the state transformations, the cipher and the inverse cipher. A state is sixteen
    bytes, row after row; a block is stored column after column. */
module Aes {
  import opened AesField
  import opened AesTables

  type State = s: seq<bv8> | |s| == 16 witness [0, 0, 0, 0, 0, 0, 0, 0, 0, 0, 0, 0, 0, 0, 0, 0]

  // ---------- what the transformations compute ----------

  function SubBytes(s: State): State { seq(16, k requires 0 <= k < 16 => SBox(s[k])) }

  function InvSubBytes(s: State): State { seq(16, k requires 0 <= k < 16 => InvSBox(s[k])) }

  function Row(s: State, i: nat): (row: seq<bv8>)
    requires i < 4
    ensures |row| == 4
  {
    s[4 * i..4 * i + 4]
  }

  /** A row turned left by `n` places. */
  function Turned(row: seq<bv8>, n: nat): seq<bv8>
    requires n <= |row|
  {
    row[n..] + row[..n]
  }

  function ShiftRows(s: State): State {
    Row(s, 0) + Turned(Row(s, 1), 1) + Turned(Row(s, 2), 2) + Turned(Row(s, 3), 3)
  }

  function InvShiftRows(s: State): State {
    Row(s, 0) + Turned(Row(s, 1), 3) + Turned(Row(s, 2), 2) + Turned(Row(s, 3), 1)
  }

  function Column(s: State, j: nat): Word
    requires j < 4
  {
    Word(s[j], s[4 + j], s[8 + j], s[12 + j])
  }

  function FromColumns(a: Word, b: Word, c: Word, d: Word): State {
    [a.c0, b.c0, c.c0, d.c0, a.c1, b.c1, c.c1, d.c1, a.c2, b.c2, c.c2, d.c2, a.c3, b.c3, c.c3, d.c3]
  }

  /** Every column multiplied by the polynomial `p`. */
  function MixWith(p: Word, s: State): State {
    FromColumns(Product(p, Column(s, 0)), Product(p, Column(s, 1)), Product(p, Column(s, 2)), Product(p, Column(s, 3)))
  }

  /** Word `n` of a block or of a key schedule. */
  function WordAt(w: seq<bv8>, n: nat): Word
    requires 4 * n + 4 <= |w|
  {
    Word(w[4 * n], w[4 * n + 1], w[4 * n + 2], w[4 * n + 3])
  }

  function AddRoundKey(s: State, w: seq<bv8>, r: nat): State
    requires |w| >= 16 * r + 16
  {
    FromColumns(Plus(Column(s, 0), WordAt(w, 4 * r)), Plus(Column(s, 1), WordAt(w, 4 * r + 1)),
                Plus(Column(s, 2), WordAt(w, 4 * r + 2)), Plus(Column(s, 3), WordAt(w, 4 * r + 3)))
  }

  /** Words as columns, or columns as words. */
  function Transposed(s: State): State {
    FromColumns(WordAt(s, 0), WordAt(s, 1), WordAt(s, 2), WordAt(s, 3))
  }

  // ---------- each of them can be undone ----------

  lemma SubBytesInverse(s: State)
    ensures InvSubBytes(SubBytes(s)) == s
  {
    forall k | 0 <= k < 16 ensures InvSubBytes(SubBytes(s))[k] == s[k] { Unsubstitute(s[k]); }
  }

  lemma ShiftRowsInverse(s: State)
    ensures InvShiftRows(ShiftRows(s)) == s
  {
    var r1, r2, r3 := Turned(Row(s, 1), 1), Turned(Row(s, 2), 2), Turned(Row(s, 3), 3);
    TurnBack(Row(s, 1), 1);
    TurnBack(Row(s, 2), 2);
    TurnBack(Row(s, 3), 3);
    RowsOf(Row(s, 0), r1, r2, r3);
    FourRows(s);
    hide Row, Turned;
  }

  lemma RowsOf(a: seq<bv8>, b: seq<bv8>, c: seq<bv8>, d: seq<bv8>)
    requires |a| == |b| == |c| == |d| == 4
    ensures var s := a + b + c + d; Row(s, 0) == a && Row(s, 1) == b && Row(s, 2) == c && Row(s, 3) == d
  {
  }

  /** Row `i` of the state moves left by `i`. */
  lemma ShiftedAt(s: State, i: nat, j: nat)
    requires i < 4 && j < 4
    ensures ShiftRows(s)[4 * i + j] == s[4 * i + (i + j) % 4]
  {
    var rows := [Row(s, 0), Turned(Row(s, 1), 1), Turned(Row(s, 2), 2), Turned(Row(s, 3), 3)];
    RowsOf(rows[0], rows[1], rows[2], rows[3]);
    TurnedAt(Row(s, i), i, j);
    assert rows[0] == Turned(Row(s, 0), 0) && rows[i] == Turned(Row(s, i), i);
    assert Row(ShiftRows(s), i) == rows[i];
    assert Row(ShiftRows(s), i)[j] == ShiftRows(s)[4 * i + j];
    hide Turned, ShiftRows;
  }

  lemma TurnedAt(row: seq<bv8>, n: nat, j: nat)
    requires |row| == 4 && n < 4 && j < 4
    ensures Turned(row, n)[j] == row[(n + j) % 4]
  {
  }

  lemma FourRows(s: State)
    ensures s == Row(s, 0) + Row(s, 1) + Row(s, 2) + Row(s, 3)
  {
  }

  lemma TurnBack(row: seq<bv8>, n: nat)
    requires n <= |row|
    ensures Turned(Turned(row, n), |row| - n) == row
  {
  }

  lemma TurnAgain(row: seq<bv8>, n: nat, m: nat)
    requires n + m <= |row|
    ensures Turned(Turned(row, n), m) == Turned(row, n + m)
  {
  }

  lemma Columns(a: Word, b: Word, c: Word, d: Word)
    ensures var s := FromColumns(a, b, c, d);
            Column(s, 0) == a && Column(s, 1) == b && Column(s, 2) == c && Column(s, 3) == d
  {
  }

  lemma Rebuilt(s: State)
    ensures s == FromColumns(Column(s, 0), Column(s, 1), Column(s, 2), Column(s, 3))
  {
  }

  lemma MixColumnsInverse(s: State)
    ensures MixWith(INV_MIX, MixWith(MIX, s)) == s
  {
    UnmixColumn(Column(s, 0));
    UnmixColumn(Column(s, 1));
    UnmixColumn(Column(s, 2));
    UnmixColumn(Column(s, 3));
    hide Product, Column, FromColumns;
    Columns(Product(MIX, Column(s, 0)), Product(MIX, Column(s, 1)), Product(MIX, Column(s, 2)),
            Product(MIX, Column(s, 3)));
    Rebuilt(s);
  }

  lemma PlusTwice(a: Word, k: Word)
    ensures Plus(Plus(a, k), k) == a
  {
    hide Add;
    AddTwice(a.c0, k.c0);
    AddTwice(a.c1, k.c1);
    AddTwice(a.c2, k.c2);
    AddTwice(a.c3, k.c3);
  }

  lemma AddTwice(a: bv8, k: bv8)
    ensures Add(Add(a, k), k) == a
  {
    hide Add;
    AddAssoc(a, k, k);
    AddSelf(k);
    AddZero(a);
  }

  lemma AddRoundKeyInverse(s: State, w: seq<bv8>, r: nat)
    requires |w| >= 16 * r + 16
    ensures AddRoundKey(AddRoundKey(s, w, r), w, r) == s
  {
    var k0, k1, k2, k3 := WordAt(w, 4 * r), WordAt(w, 4 * r + 1), WordAt(w, 4 * r + 2), WordAt(w, 4 * r + 3);
    PlusTwice(Column(s, 0), k0);
    PlusTwice(Column(s, 1), k1);
    PlusTwice(Column(s, 2), k2);
    PlusTwice(Column(s, 3), k3);
    hide Plus, Column, FromColumns;
    Columns(Plus(Column(s, 0), k0), Plus(Column(s, 1), k1), Plus(Column(s, 2), k2), Plus(Column(s, 3), k3));
    Rebuilt(s);
  }

  lemma TransposedInverse(s: State)
    ensures Transposed(Transposed(s)) == s
  {
    WordsBack(s);
    Rebuilt(s);
    hide Column, WordAt, FromColumns;
  }

  lemma WordsBack(s: State)
    ensures WordAt(Transposed(s), 0) == Column(s, 0) && WordAt(Transposed(s), 1) == Column(s, 1)
    ensures WordAt(Transposed(s), 2) == Column(s, 2) && WordAt(Transposed(s), 3) == Column(s, 3)
  {
  }

  // ---------- the transformations in place ----------

  /** Exactly the columns below `j` have been replaced. */
  ghost predicate ColumnsDone(was: State, now: State, target: State, j: nat) {
    forall m: nat :: m < 4 ==> Column(now, m) == Column(if m < j then target else was, m)
  }

  lemma AllColumnsDone(was: State, now: State, target: State)
    requires ColumnsDone(was, now, target, 4)
    ensures now == target
  {
    assert Column(now, 0) == Column(target, 0) && Column(now, 1) == Column(target, 1);
    assert Column(now, 2) == Column(target, 2) && Column(now, 3) == Column(target, 3);
    hide Column;
    Rebuilt(now);
    Rebuilt(target);
  }

  method PutColumn(state: array<bv8>, j: nat, w: Word, ghost was: State, ghost target: State)
    requires state.Length == 16 && j < 4 && ColumnsDone(was, state[..], target, j) && Column(target, j) == w
    modifies state
    ensures ColumnsDone(was, state[..], target, j + 1)
  {
    ghost var before := state[..];
    state[j], state[4 + j], state[8 + j], state[12 + j] := w.c0, w.c1, w.c2, w.c3;
    forall m: nat | m < 4 ensures Column(state[..], m) == Column(if m < j + 1 then target else was, m) {
      assert m == j || Column(state[..], m) == Column(before, m);
    }
  }

  /** add_round_key */
  method AddRoundKeyInPlace(state: array<bv8>, w: seq<bv8>, r: nat)
    requires state.Length == 16 && |w| >= 16 * r + 16
    modifies state
    ensures state[..] == AddRoundKey(old(state[..]), w, r)
  {
    hide Add;
    ghost var was, target := state[..], AddRoundKey(state[..], w, r);
    for c := 0 to 4
      invariant ColumnsDone(was, state[..], target, c)
    {
      assert Column(state[..], c) == Column(was, c);
      assert Column(target, c) == Plus(Column(was, c), WordAt(w, 4 * r + c));
      var col := KeyedColumn(state, w, 4 * r + c, c);
      PutColumn(state, c, col, was, target);
    }
    AllColumnsDone(was, state[..], target);
  }

  method KeyedColumn(state: array<bv8>, w: seq<bv8>, n: nat, c: nat) returns (col: Word)
    requires state.Length == 16 && c < 4 && 4 * n + 4 <= |w|
    ensures col == Plus(Column(state[..], c), WordAt(w, n))
  {
    hide Add;
    col := Word(Add(state[c], w[4 * n]), Add(state[4 + c], w[4 * n + 1]), Add(state[8 + c], w[4 * n + 2]),
                Add(state[12 + c], w[4 * n + 3]));
  }

  /** mix_columns and inv_mix_columns, which differ in the polynomial only. */
  method MixInPlace(state: array<bv8>, a: Word)
    requires state.Length == 16
    modifies state
    ensures state[..] == MixWith(a, old(state[..]))
  {
    hide Product;
    ghost var was, target := state[..], MixWith(a, state[..]);
    for j := 0 to 4
      invariant ColumnsDone(was, state[..], target, j)
    {
      assert Column(state[..], j) == Column(was, j);
      assert Column(target, j) == Product(a, Column(was, j));
      var col := Word(state[j], state[4 + j], state[8 + j], state[12 + j]);
      var res := CoefMult(a, col);
      PutColumn(state, j, res, was, target);
    }
    AllColumnsDone(was, state[..], target);
  }

  method SubBytesInPlace(state: array<bv8>)
    requires state.Length == 16
    modifies state
    ensures state[..] == SubBytes(old(state[..]))
  {
    hide SBox;
    for i := 0 to 4
      invariant forall k :: 0 <= k < 16 ==> state[k] == if k < 4 * i then SBox(old(state[k])) else old(state[k])
    {
      for j := 0 to 4
        invariant forall k :: 0 <= k < 16 ==> state[k] == if k < 4 * i + j then SBox(old(state[k])) else old(state[k])
      {
        state[4 * i + j] := SBox(state[4 * i + j]);
      }
    }
  }

  method InvSubBytesInPlace(state: array<bv8>)
    requires state.Length == 16
    modifies state
    ensures state[..] == InvSubBytes(old(state[..]))
  {
    hide InvSBox;
    for i := 0 to 4
      invariant forall k :: 0 <= k < 16 ==> state[k] == if k < 4 * i then InvSBox(old(state[k])) else old(state[k])
    {
      for j := 0 to 4
        invariant forall k :: 0 <= k < 16 ==> state[k] == if k < 4 * i + j then InvSBox(old(state[k])) else old(state[k])
      {
        state[4 * i + j] := InvSBox(state[4 * i + j]);
      }
    }
  }

  /** Row `r` is turned left by `turns[r]` places. */
  ghost predicate RowsTurned(was: State, now: State, turns: seq<nat>) {
    |turns| == 4 && forall r: nat :: r < 4 ==> turns[r] <= 4 && Row(now, r) == Turned(Row(was, r), turns[r])
  }

  /** `now` differs from `before` in row `i`, which is turned left by `n` places. */
  ghost predicate RowTurned(before: State, now: State, i: nat, n: nat) {
    && i < 4 && n <= 4 && Row(now, i) == Turned(Row(before, i), n)
    && forall r: nat :: r < 4 && r != i ==> Row(now, r) == Row(before, r)
  }

  lemma TurnRow(was: State, before: State, now: State, turns: seq<nat>, i: nat)
    requires RowsTurned(was, before, turns) && i < 4
    ensures RowTurned(before, now, i, 1) && turns[i] < 4 ==> RowsTurned(was, now, turns[i := turns[i] + 1])
    ensures RowTurned(before, now, i, 3) && turns[i] > 0 ==> RowsTurned(was, now, turns[i := turns[i] - 1])
  {
    hide Row;
    if turns[i] < 4 {
      TurnAgain(Row(was, i), turns[i], 1);
    }
    if turns[i] > 0 {
      TurnedBack(Row(was, i), turns[i]);
    }
    hide Turned;
  }

  lemma TurnedBack(row: seq<bv8>, n: nat)
    requires |row| == 4 && 0 < n <= 4
    ensures Turned(Turned(row, n), 3) == Turned(row, n - 1)
  {
  }

  lemma RowsDone(was: State, now: State)
    ensures RowsTurned(was, now, [0, 1, 2, 3]) ==> now == ShiftRows(was)
    ensures RowsTurned(was, now, [4, 3, 2, 1]) ==> now == InvShiftRows(was)
  {
    assert Turned(Row(was, 0), 0) == Row(was, 0) == Turned(Row(was, 0), 4);
    FourRows(now);
    hide Row, Turned;
    assert RowsTurned(was, now, [4, 3, 2, 1]) ==> Row(now, 0) == Turned(Row(was, 0), [4, 3, 2, 1][0]);
    assert RowsTurned(was, now, [0, 1, 2, 3]) ==> Row(now, 0) == Turned(Row(was, 0), [0, 1, 2, 3][0]);
  }

  /** One turn of a row to the left, by moving three bytes down. */
  method TurnLeft(state: array<bv8>, i: nat)
    requires state.Length == 16 && i < 4
    modifies state
    ensures RowTurned(old(state[..]), state[..], i, 1)
  {
    ghost var before := state[..];
    var at := 4 * i;
    var tmp := state[at];
    for k := 1 to 4
      invariant forall m :: 0 <= m < 16 && !(at <= m < at + k - 1) ==> state[m] == before[m]
      invariant state[at..at + k - 1] == before[at + 1..at + k]
    {
      state[at + k - 1] := state[at + k];
    }
    state[at + 3] := tmp;
    assert state[at..at + 3] == before[at + 1..at + 4] && state[at + 3] == before[at];
    assert forall m :: 0 <= m < 16 && !(at <= m < at + 4) ==> state[m] == before[m];
    RowMoved(before, state[..], i);
  }

  /** One turn to the right, which is three to the left. */
  method TurnRight(state: array<bv8>, i: nat)
    requires state.Length == 16 && i < 4
    modifies state
    ensures RowTurned(old(state[..]), state[..], i, 3)
  {
    ghost var before := state[..];
    var at := 4 * i;
    var tmp := state[at + 3];
    for k := 3 downto 0
      invariant forall m :: 0 <= m < 16 && !(at + k < m <= at + 3) ==> state[m] == before[m]
      invariant state[at + k + 1..at + 4] == before[at + k..at + 3]
    {
      state[at + k + 1] := state[at + k];
    }
    state[at] := tmp;
    assert state[at..at + 4] == [tmp] + before[at..at + 3];
    RowByRow(before, state[..], i, Turned(Row(before, i), 3));
  }

  lemma RowMoved(before: State, now: State, i: nat)
    requires i < 4 && now[4 * i..4 * i + 3] == before[4 * i + 1..4 * i + 4] && now[4 * i + 3] == before[4 * i]
    requires forall m :: 0 <= m < 16 && !(4 * i <= m < 4 * i + 4) ==> now[m] == before[m]
    ensures RowTurned(before, now, i, 1)
  {
    assert Row(now, i) == now[4 * i..4 * i + 3] + [now[4 * i + 3]];
    assert Turned(Row(before, i), 1) == before[4 * i + 1..4 * i + 4] + [before[4 * i]];
    RowByRow(before, now, i, Turned(Row(before, i), 1));
  }

  lemma RowByRow(before: State, now: State, i: nat, row: seq<bv8>)
    requires i < 4 && Row(now, i) == row
    requires forall m :: 0 <= m < 16 && !(4 * i <= m < 4 * i + 4) ==> now[m] == before[m]
    ensures forall r: nat :: r < 4 && r != i ==> Row(now, r) == Row(before, r)
  {
  }

  /** shift_rows */
  method ShiftRowsInPlace(state: array<bv8>)
    requires state.Length == 16
    modifies state
    ensures state[..] == ShiftRows(old(state[..]))
  {
    hide Row, Turned;
    ghost var was, turns: seq<nat> := state[..], [0, 0, 0, 0];
    NotTurned(was);
    for i := 1 to 4
      invariant RowsTurned(was, state[..], turns) && forall r :: 0 <= r < 4 ==> turns[r] == if r < i then r else 0
    {
      var s := 0;
      while s < i
        invariant s <= i && RowsTurned(was, state[..], turns)
        invariant forall r :: 0 <= r < 4 ==> turns[r] == if r < i then r else if r == i then s else 0
      {
        ghost var before := state[..];
        TurnLeft(state, i);
        TurnRow(was, before, state[..], turns, i);
        turns := turns[i := turns[i] + 1];
        s := s + 1;
      }
    }
    assert turns == [0, 1, 2, 3];
    RowsDone(was, state[..]);
  }

  lemma NotTurned(s: State)
    ensures RowsTurned(s, s, [0, 0, 0, 0]) && RowsTurned(s, s, [4, 4, 4, 4])
  {
    assert forall r: nat :: r < 4 ==> Turned(Row(s, r), 0) == Row(s, r) == Turned(Row(s, r), 4);
  }

  /** inv_shift_rows */
  method InvShiftRowsInPlace(state: array<bv8>)
    requires state.Length == 16
    modifies state
    ensures state[..] == InvShiftRows(old(state[..]))
  {
    hide Row, Turned;
    ghost var was, turns: seq<nat> := state[..], [4, 4, 4, 4];
    NotTurned(was);
    for i := 1 to 4
      invariant RowsTurned(was, state[..], turns) && forall r :: 0 <= r < 4 ==> turns[r] == if r < i then 4 - r else 4
    {
      var s := 0;
      while s < i
        invariant s <= i && RowsTurned(was, state[..], turns)
        invariant forall r :: 0 <= r < 4 ==> turns[r] == if r < i then 4 - r else if r == i then 4 - s else 4
      {
        ghost var before := state[..];
        TurnRight(state, i);
        TurnRow(was, before, state[..], turns, i);
        turns := turns[i := turns[i] - 1];
        s := s + 1;
      }
    }
    assert turns == [4, 3, 2, 1];
    RowsDone(was, state[..]);
  }

  // ---------- the ciphers ----------

  /** `w` holds the keys of `nr` rounds; the round counter is a byte. */
  predicate RoundKeys(w: seq<bv8>, nr: nat) { 1 <= nr <= 255 && |w| >= 16 * nr + 16 }

  /** The state after round `r` of the cipher. */
  function AfterRound(x: State, w: seq<bv8>, r: nat): State
    requires |w| >= 16 * r + 16
    decreases r
  {
    if r == 0 then AddRoundKey(x, w, 0)
    else AddRoundKey(MixWith(MIX, ShiftRows(SubBytes(AfterRound(x, w, r - 1)))), w, r)
  }

  function Encrypt(x: State, w: seq<bv8>, nr: nat): State
    requires RoundKeys(w, nr)
  {
    Transposed(AddRoundKey(ShiftRows(SubBytes(AfterRound(Transposed(x), w, nr - 1))), w, nr))
  }

  /** Rounds `r` down to 1 of the inverse cipher. */
  function InvRounds(s: State, w: seq<bv8>, r: nat): State
    requires |w| >= 16 * r + 16
    decreases r
  {
    if r == 0 then s
    else InvRounds(MixWith(INV_MIX, AddRoundKey(InvSubBytes(InvShiftRows(s)), w, r)), w, r - 1)
  }

  function Decrypt(y: State, w: seq<bv8>, nr: nat): State
    requires RoundKeys(w, nr)
  {
    var s := InvRounds(AddRoundKey(Transposed(y), w, nr), w, nr - 1);
    Transposed(AddRoundKey(InvSubBytes(InvShiftRows(s)), w, 0))
  }

  /** inv_cipher undoes cipher, whatever the round keys and however many rounds. */
  lemma DecryptEncrypt(x: State, w: seq<bv8>, nr: nat)
    requires RoundKeys(w, nr)
    ensures Decrypt(Encrypt(x, w, nr), w, nr) == x
  {
    hide ShiftRows, SubBytes, InvShiftRows, InvSubBytes, AddRoundKey, MixWith, Transposed;
    var s := Transposed(x);
    var last := ShiftRows(SubBytes(AfterRound(s, w, nr - 1)));
    TransposedInverse(AddRoundKey(last, w, nr));
    AddRoundKeyInverse(last, w, nr);
    UndoRounds(s, w, nr - 1);
    UndoSubstitution(AddRoundKey(s, w, 0));
    AddRoundKeyInverse(s, w, 0);
    TransposedInverse(x);
  }

  lemma UndoSubstitution(s: State)
    ensures InvSubBytes(InvShiftRows(ShiftRows(SubBytes(s)))) == s
  {
    hide ShiftRows, SubBytes, InvShiftRows, InvSubBytes;
    ShiftRowsInverse(SubBytes(s));
    SubBytesInverse(s);
  }

  lemma {:induction false} UndoRounds(s: State, w: seq<bv8>, r: nat)
    requires |w| >= 16 * r + 16
    ensures InvRounds(ShiftRows(SubBytes(AfterRound(s, w, r))), w, r) == ShiftRows(SubBytes(AddRoundKey(s, w, 0)))
    decreases r
  {
    hide ShiftRows, SubBytes, InvShiftRows, InvSubBytes, AddRoundKey, MixWith;
    if r > 0 {
      var before := ShiftRows(SubBytes(AfterRound(s, w, r - 1)));
      UndoSubstitution(AfterRound(s, w, r));
      AddRoundKeyInverse(MixWith(MIX, before), w, r);
      MixColumnsInverse(before);
      UndoRounds(s, w, r - 1);
    }
  }

  /** The copying loops at the start and at the end. */
  method Transpose(from: seq<bv8>, to: array<bv8>)
    requires |from| == 16 && to.Length == 16
    modifies to
    ensures to[..] == Transposed(from)
  {
    hide MovedRow, Transposed;
    for i := 0 to 4
      invariant forall r :: 0 <= r < i ==> MovedRow(from, to[..], r)
    {
      TransposeRow(from, to, i);
    }
    AllRowsMoved(from, to[..]);
  }

  lemma AllRowsMoved(from: State, to: State)
    requires forall r :: 0 <= r < 4 ==> MovedRow(from, to, r)
    ensures to == Transposed(from)
  {
    hide FromColumns;
    assert MovedRow(from, to, 0) && MovedRow(from, to, 1) && MovedRow(from, to, 2) && MovedRow(from, to, 3);
    assert Column(to, 0) == WordAt(from, 0) && Column(to, 1) == WordAt(from, 1);
    assert Column(to, 2) == WordAt(from, 2) && Column(to, 3) == WordAt(from, 3);
    Rebuilt(to);
  }

  method TransposeRow(from: State, to: array<bv8>, i: nat)
    requires to.Length == 16 && i < 4
    modifies to
    ensures MovedRow(from, to[..], i)
    ensures forall r :: 0 <= r < i && old(MovedRow(from, to[..], r)) ==> MovedRow(from, to[..], r)
  {
    var at := 4 * i;
    for j := 0 to 4
      invariant to[..at] == old(to[..at])
      invariant forall m :: at <= m < at + j ==> to[m] == from[i + 4 * (m - at)]
    {
      to[at + j] := from[i + 4 * j];
    }
    forall r | 0 <= r < i && old(MovedRow(from, to[..], r)) ensures MovedRow(from, to[..], r) {
      assert to[..at][4 * r] == to[4 * r] && to[..at][4 * r + 1] == to[4 * r + 1];
      assert to[..at][4 * r + 2] == to[4 * r + 2] && to[..at][4 * r + 3] == to[4 * r + 3];
    }
  }

  predicate MovedRow(from: State, to: State, i: int)
    requires 0 <= i < 4
  {
    && to[4 * i] == from[i] && to[4 * i + 1] == from[i + 4]
    && to[4 * i + 2] == from[i + 8] && to[4 * i + 3] == from[i + 12]
  }

  /** cipher */
  method Cipher(input: State, out: array<bv8>, w: seq<bv8>, nr: nat)
    requires out.Length == 16 && RoundKeys(w, nr)
    modifies out
    ensures out[..] == Encrypt(input, w, nr)
  {
    hide ShiftRows, SubBytes, AddRoundKey, MixWith, Transposed;
    var state := new bv8[16];
    Transpose(input, state);
    AddRoundKeyInPlace(state, w, 0);
    for r := 1 to nr
      invariant state[..] == AfterRound(Transposed(input), w, r - 1)
    {
      SubBytesInPlace(state);
      ShiftRowsInPlace(state);
      MixInPlace(state, MIX);
      AddRoundKeyInPlace(state, w, r);
    }
    SubBytesInPlace(state);
    ShiftRowsInPlace(state);
    AddRoundKeyInPlace(state, w, nr);
    Transpose(state[..], out);
  }

  /** inv_cipher */
  method InvCipher(input: State, out: array<bv8>, w: seq<bv8>, nr: nat)
    requires out.Length == 16 && RoundKeys(w, nr)
    modifies out
    ensures out[..] == Decrypt(input, w, nr)
  {
    hide InvShiftRows, InvSubBytes, AddRoundKey, MixWith, Transposed;
    var state := new bv8[16];
    Transpose(input, state);
    AddRoundKeyInPlace(state, w, nr);
    ghost var first := state[..];
    var r := nr - 1;
    while r >= 1
      invariant 0 <= r < nr && InvRounds(state[..], w, r) == InvRounds(first, w, nr - 1)
    {
      InvShiftRowsInPlace(state);
      InvSubBytesInPlace(state);
      AddRoundKeyInPlace(state, w, r);
      MixInPlace(state, INV_MIX);
      r := r - 1;
    }
    InvShiftRowsInPlace(state);
    InvSubBytesInPlace(state);
    AddRoundKeyInPlace(state, w, 0);
    Transpose(state[..], out);
  }
}

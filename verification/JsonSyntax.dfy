/** json_config.c: the texts of RFC 8259 that stand for a value of the model, with every blank, escape
    and spelling that is allowed, and what the parser makes of them. */
module JsonSyntax {
  import opened JsonText
  import opened Json

  // ---------- strings ----------

  /** A stretch of a string as it is written: a character, a backslash and a letter, one `\u` escape,
      or two of them for a character that needs a surrogate pair. */
  datatype Piece =
    | Plain(c: char)
    | Short(c: char)
    | Unit(n: nat, digits: string)
    | Pair(n: nat, high: string, low: string)

  /** Character `c` is hex digit `d`, in either case. */
  predicate Spells(c: char, d: nat) {
    (d < 10 && c as int == 48 + d) || (10 <= d < 16 && (c as int == 87 + d || c as int == 55 + d))
  }

  /** `s` is `n` in four hex digits, the most significant first. */
  predicate Spelled(s: string, n: nat) {
    && |s| == 4 && n < 0x10000
    && Spells(s[0], n / 0x1000) && Spells(s[1], n / 0x100 % 0x10)
    && Spells(s[2], n / 0x10 % 0x10) && Spells(s[3], n % 0x10)
  }

  /** Character `n` has one escape of its own. */
  predicate OneUnit(n: nat) { 0 < n < 0xD800 || 0xE000 <= n < 0x10000 }

  function High(n: nat): nat
    requires n >= 0x10000
  {
    0xD800 + (n - 0x10000) / 0x400
  }

  function Low(n: nat): nat
    requires n >= 0x10000
  {
    0xDC00 + (n - 0x10000) % 0x400
  }

  /** It is written as the standard allows; of the surrogate pairs only those the code gets right. */
  predicate PieceOK(p: Piece) {
    match p
    case Plain(c) => c != '\"' && c != '\\' && c != '\0'
    case Short(c) => c in "\"\\/bfnrt"
    case Unit(n, digits) => OneUnit(n) && Spelled(digits, n)
    case Pair(n, high, low) =>
      0x10000 <= n < 0x110000 && n / 0x10000 % 2 == 1 && Spelled(high, High(n)) && Spelled(low, Low(n))
  }

  function PieceText(p: Piece): string {
    match p
    case Plain(c) => [c]
    case Short(c) => ['\\', c]
    case Unit(_, digits) => "\\u" + digits
    case Pair(_, high, low) => "\\u" + (high + ("\\u" + low))
  }

  /** What the character after a backslash stands for, by its number. */
  function ShortMeaning(c: char): char {
    if c == 'b' then 8 as char
    else if c == 'f' then 12 as char
    else if c == 'n' then 10 as char
    else if c == 'r' then 13 as char
    else if c == 't' then 9 as char
    else c
  }

  function PieceMeaning(p: Piece): string
    requires PieceOK(p)
  {
    match p
    case Plain(c) => [c]
    case Short(c) => [ShortMeaning(c)]
    case Unit(n, _) => Utf8(n)
    case Pair(n, _, _) => Utf8(n)
  }

  lemma SpelledCode(s: string, n: nat, tail: string)
    requires Spelled(s, n)
    ensures HasCode(s + tail) && Code(s + tail) == n && (s + tail)[4..] == tail
  {
    hide IsHex, HexOf, Spells;
    DigitSpelled(s[0], n / 0x1000);
    DigitSpelled(s[1], n / 0x100 % 0x10);
    DigitSpelled(s[2], n / 0x10 % 0x10);
    DigitSpelled(s[3], n % 0x10);
    FourDigits(n);
    assert (s + tail)[4..] == tail;
  }

  lemma DigitSpelled(c: char, d: nat)
    requires Spells(c, d)
    ensures IsHex(c) && HexOf(c) == d
  {
  }

  lemma FourDigits(n: nat)
    ensures n == ((n / 0x1000 * 16 + n / 0x100 % 0x10) * 16 + n / 0x10 % 0x10) * 16 + n % 0x10
  {
    assert n / 0x10 / 0x10 == n / 0x100 && n / 0x100 / 0x10 == n / 0x1000;
  }

  /** One piece is read as what it means, whatever follows. */
  lemma PieceRead(p: Piece, tail: string)
    requires PieceOK(p)
    ensures CharsAt(PieceText(p) + tail) == Prepend(PieceMeaning(p), CharsAt(tail))
  {
    match p
    case Plain(c) => assert ([c] + tail)[1..] == tail;
    case Short(c) => ShortRead(c, tail);
    case Unit(n, digits) => UnitRead(n, digits, tail);
    case Pair(n, high, low) => PairRead(n, high, low, tail);
  }

  lemma ShortRead(c: char, tail: string)
    requires c in "\"\\/bfnrt"
    ensures CharsAt(['\\', c] + tail) == Prepend([ShortMeaning(c)], CharsAt(tail))
  {
    var s := ['\\', c] + tail;
    assert s[1..][1..] == tail && s[1..][0] == c;
  }

  lemma UnitRead(n: nat, digits: string, tail: string)
    requires OneUnit(n) && Spelled(digits, n)
    ensures CharsAt("\\u" + digits + tail) == Prepend(Utf8(n), CharsAt(tail))
  {
    var s := "\\u" + digits + tail;
    assert s[1..][1..] == digits + tail;
    SpelledCode(digits, n, tail);
    assert s[1..][5..] == tail;
  }

  lemma PairRead(n: nat, high: string, low: string, tail: string)
    requires 0x10000 <= n < 0x110000 && n / 0x10000 % 2 == 1 && Spelled(high, High(n)) && Spelled(low, Low(n))
    ensures CharsAt("\\u" + (high + ("\\u" + low)) + tail) == Prepend(Utf8(n), CharsAt(tail))
  {
    var s, later := "\\u" + (high + ("\\u" + low)) + tail, "\\u" + low + tail;
    assert s[1..][1..] == high + later;
    SpelledCode(high, High(n), later);
    assert s[1..][5..] == later && s[1..][7..] == low + tail;
    SpelledCode(low, Low(n), tail);
    PairMeaning(n);
    assert s[1..][11..] == tail;
  }

  function PiecesText(ps: seq<Piece>): string {
    if ps == [] then [] else PieceText(ps[0]) + PiecesText(ps[1..])
  }

  predicate PiecesOK(ps: seq<Piece>) { forall i :: 0 <= i < |ps| ==> PieceOK(ps[i]) }

  function PiecesMeaning(ps: seq<Piece>): string
    requires PiecesOK(ps)
  {
    if ps == [] then [] else PieceMeaning(ps[0]) + PiecesMeaning(ps[1..])
  }

  function Quoted(ps: seq<Piece>): string { "\"" + (PiecesText(ps) + "\"") }

  lemma {:induction false} PiecesRead(ps: seq<Piece>, tail: string)
    requires PiecesOK(ps)
    ensures CharsAt(PiecesText(ps) + ("\"" + tail)) == Ok(PiecesMeaning(ps), tail)
  {
    var end := "\"" + tail;
    if ps == [] {
      assert PiecesText(ps) + end == end && end[1..] == tail;
    } else {
      hide PieceText, PieceMeaning, PieceOK, CharsAt;
      PiecesRead(ps[1..], tail);
      Assoc(PieceText(ps[0]), PiecesText(ps[1..]), end);
      PieceRead(ps[0], PiecesText(ps[1..]) + end);
    }
  }

  /** A string is read as its pieces say, and exactly its text is consumed. */
  lemma StringRead(ps: seq<Piece>, tail: string)
    requires PiecesOK(ps)
    ensures StringAt(Quoted(ps) + tail) == Ok(PiecesMeaning(ps), tail)
  {
    hide PiecesText, CharsAt, PiecesMeaning;
    PiecesRead(ps, tail);
    var s := Quoted(ps) + tail;
    assert s[0] == '\"' && s[1..] == PiecesText(ps) + ("\"" + tail);
  }

  // ---------- numbers ----------

  /** No exponent, or one that is zero. */
  predicate ZeroExponent(e: string) {
    e == [] || ((e[0] == 'e' || e[0] == 'E') && |Exponent(e)| > 0 && Zeros(Exponent(e)))
  }

  /** The digits of an exponent. */
  function Exponent(e: string): string
    requires e != []
  {
    if |e| > 1 && (e[1] == '+' || e[1] == '-') then e[2..] else e[1..]
  }

  predicate Zeros(s: string) { forall i :: 0 <= i < |s| ==> s[i] == '0' }

  lemma {:induction false} ZeroValue(s: string)
    requires Zeros(s)
    ensures AllDigits(s) && DecVal(s) == 0
  {
    if s != [] { ZeroValue(s[..|s| - 1]); }
  }

  lemma ScaleRead(e: string, n: nat, neg: bool, rest: string)
    requires ZeroExponent(e) && n < TWO_64 && EndsNumber(rest)
    ensures ScaleAt(e + rest, n, neg) == Finish(neg, n, rest)
  {
    var s := e + rest;
    if e == [] {
      assert s == rest;
    } else {
      var zeros := Exponent(e);
      ZeroValue(zeros);
      RunOf(zeros, rest);
      assert zeros[0] == '0';
      var sign := |e| > 1 && (e[1] == '+' || e[1] == '-');
      assert s[1..] == e[1..] + rest && (sign ==> s[2..] == zeros + rest);
      var exponent := zeros + rest;
      assert exponent[..|zeros|] == zeros && exponent[|zeros|..] == rest;
      hide DecVal, Run, Finish;
    }
  }

  /** A number is its digits, behind an optional sign. */
  lemma NumberRead(neg: bool, n: nat, e: string, rest: string)
    requires ZeroExponent(e) && n < TWO_64 && EndsNumber(rest)
    ensures NumberAt((if neg then "-" else "") + (Decimal(n) + (e + rest))) ==
            Ok(Int(if neg then (TWO_64 - n) % TWO_64 else n, neg), rest)
  {
    var tail := e + rest;
    assert tail == [] || !IsDigit(tail[0]);
    NumberHead(n, tail);
    MagnitudeRead(n, neg, tail);
    ScaleRead(e, n, neg, rest);
    hide Decimal, MagnitudeAt, ScaleAt, NumberAt;
    assert "" + (Decimal(n) + tail) == Decimal(n) + tail;
  }

  lemma MagnitudeRead(n: nat, neg: bool, rest: string)
    requires rest == [] || !IsDigit(rest[0])
    ensures MagnitudeAt(Decimal(n) + rest, neg) == ScaleAt(rest, n, neg)
  {
    var ds, s := Decimal(n), Decimal(n) + rest;
    if n == 0 {
      assert s[1..] == rest;
      assert rest[..0] == [] && rest[0..] == rest;
    } else {
      RunOf(ds, rest);
      DecimalValue(n);
      hide Decimal, DecVal, Run;
      assert s[0] == ds[0] && s[..|ds|] == ds && s[|ds|..] == rest;
    }
  }

  // ---------- values ----------

  datatype Syntax =
    | Literal(value: Json)
    | Number(neg: bool, n: nat, exponent: string)
    | Text(pieces: seq<Piece>)
    | Array(blank: string, items: seq<Item>)
    | Object(blank: string, fields: seq<Field>)

  /** An element with the blanks around it. */
  datatype Item = Item(before: string, value: Syntax, after: string)

  /** A name, a colon and a value, with the blanks around them. */
  datatype Field = Field(before: string, name: seq<Piece>, mid: string, gap: string, value: Syntax, after: string)

  predicate WellFormed(x: Syntax) {
    match x
    case Literal(v) => v == Null || v == False || v == True
    case Number(_, n, e) => n < TWO_64 && ZeroExponent(e)
    case Text(ps) => PiecesOK(ps)
    case Array(blank, items) => AllBlank(blank) && forall i :: 0 <= i < |items| ==> ItemOK(items[i])
    case Object(blank, fields) => AllBlank(blank) && forall i :: 0 <= i < |fields| ==> FieldOK(fields[i])
  }

  predicate ItemOK(i: Item) { AllBlank(i.before) && AllBlank(i.after) && WellFormed(i.value) }

  predicate FieldOK(f: Field) {
    && AllBlank(f.before) && AllBlank(f.mid) && AllBlank(f.gap) && AllBlank(f.after)
    && PiecesOK(f.name) && WellFormed(f.value)
  }

  function Written(x: Syntax): string {
    match x
    case Literal(v) => if v == Null then "null" else if v == False then "false" else "true"
    case Number(neg, n, e) => (if neg then "-" else "") + (Decimal(n) + e)
    case Text(ps) => Quoted(ps)
    case Array(blank, items) => "[" + ((if items == [] then blank else ItemsWritten(items)) + "]")
    case Object(blank, fields) => "{" + ((if fields == [] then blank else FieldsWritten(fields)) + "}")
  }

  function ItemsWritten(items: seq<Item>): string {
    if items == [] then [] else
      items[0].before + (Written(items[0].value) + (items[0].after + (Between(items) + ItemsWritten(items[1..]))))
  }

  function Between<T>(xs: seq<T>): string { if |xs| > 1 then "," else [] }

  function FieldsWritten(fs: seq<Field>): string {
    if fs == [] then [] else
      var f := fs[0];
      var later := Between(fs) + FieldsWritten(fs[1..]);
      f.before + (Quoted(f.name) + (f.mid + (":" + (f.gap + (Written(f.value) + (f.after + later))))))
  }

  function Meaning(x: Syntax): Json
    requires WellFormed(x)
  {
    match x
    case Literal(v) => v
    case Number(neg, n, _) => Int(if neg then (TWO_64 - n) % TWO_64 else n, neg)
    case Text(ps) => Str(PiecesMeaning(ps))
    case Array(_, items) => Arr(ItemsMeaning(items))
    case Object(_, fields) => Obj(FieldsMeaning(fields))
  }

  function ItemsMeaning(items: seq<Item>): seq<Json>
    requires forall i :: 0 <= i < |items| ==> ItemOK(items[i])
  {
    if items == [] then [] else
      assert ItemOK(items[0]);
      [Meaning(items[0].value)] + ItemsMeaning(items[1..])
  }

  function FieldsMeaning(fs: seq<Field>): seq<Member>
    requires forall i :: 0 <= i < |fs| ==> FieldOK(fs[i])
  {
    if fs == [] then [] else
      assert FieldOK(fs[0]);
      [Member(PiecesMeaning(fs[0].name), Meaning(fs[0].value))] + FieldsMeaning(fs[1..])
  }

  // ---------- every such text is read as what it means ----------

  lemma Head(x: Syntax, tail: string)
    requires WellFormed(x)
    ensures Written(x) != [] && var s := Written(x) + tail;
            && s[0] == Written(x)[0] && !Blank(s[0]) && s[0] != ']' && s[0] != '}' && SkipBlanks(s) == s
    ensures x.Array? ==> Written(x)[0] == '['
    ensures x.Object? ==> Written(x)[0] == '{'
    ensures x.Text? ==> Written(x)[0] == '\"'
    ensures x.Number? ==> Written(x)[0] == '-' || IsDigit(Written(x)[0])
  {
    hide ItemsWritten, FieldsWritten, PiecesText;
    if x.Number? {
      assert Decimal(x.n)[0] == Written(x)[0] || x.neg;
    }
  }

  lemma {:induction false} ValueRead(x: Syntax, rest: string)
    requires WellFormed(x) && (x.Number? ==> EndsNumber(rest))
    ensures ValueAt(Written(x) + rest) == Ok(Meaning(x), rest)
    decreases x, 1
  {
    var s := Written(x) + rest;
    match x
    case Literal(v) => LiteralRead(v, rest);
    case Number(neg, n, e) => NumberValue(neg, n, e, rest);
    case Text(ps) => TextValue(ps, rest);
    case Array(blank, items) => ArrayRead(blank, items, rest);
    case Object(blank, fields) => ObjectRead(blank, fields, rest);
  }

  lemma LiteralRead(v: Json, rest: string)
    requires v == Null || v == False || v == True
    ensures ValueAt(Written(Literal(v)) + rest) == Ok(v, rest)
  {
    hide NumberAt, StringAt, ArrayAt, ObjectAt;
    var s := Written(Literal(v)) + rest;
    NotWord(s);
    assert v == Null ==> s[..4] == "null" && s[4..] == rest;
    assert v == False ==> s[..5] == "false" && s[5..] == rest;
    assert v == True ==> s[..4] == "true" && s[4..] == rest;
  }

  lemma NumberValue(neg: bool, n: nat, e: string, rest: string)
    requires ZeroExponent(e) && n < TWO_64 && EndsNumber(rest)
    ensures ValueAt(Written(Number(neg, n, e)) + rest) == Ok(Meaning(Number(neg, n, e)), rest)
  {
    hide NumberAt, StringAt, ArrayAt, ObjectAt, Decimal, ZeroExponent;
    var x := Number(neg, n, e);
    var s := Written(x) + rest;
    Head(x, rest);
    NotWord(s);
    NumberRead(neg, n, e, rest);
    var sign := if neg then "-" else "";
    Assoc(sign, Decimal(n) + e, rest);
    Assoc(Decimal(n), e, rest);
  }

  lemma TextValue(ps: seq<Piece>, rest: string)
    requires PiecesOK(ps)
    ensures ValueAt(Written(Text(ps)) + rest) == Ok(Str(PiecesMeaning(ps)), rest)
  {
    Head(Text(ps), rest);
    StringRead(ps, rest);
    NotWord(Written(Text(ps)) + rest);
    hide NumberAt, StringAt, ArrayAt, ObjectAt, PiecesMeaning, PiecesText;
  }

  /** A value is followed by blanks and a separator or a bracket, which end a number. */
  lemma AfterValue(after: string, next: string)
    requires AllBlank(after) && next != [] && next[0] in ",]}"
    ensures EndsNumber(after + next) && SkipBlanks(after + next) == next
  {
    SkipOver(after, next);
    assert after != [] ==> (after + next)[0] == after[0];
    assert after == [] ==> after + next == next;
  }

  /** Where the first blanks end. */
  lemma ItemStarts(i: Item, tail: string)
    requires ItemOK(i)
    ensures var x := Written(i.value) + tail;
            && SkipBlanks(i.before + x) == x == SkipBlanks(x) && x != [] && x[0] != ']' && x[0] != '}'
  {
    Head(i.value, tail);
    SkipOver(i.before, Written(i.value) + tail);
    hide Written, SkipBlanks, AllBlank;
  }

  lemma Regroup(b: string, w: string, a: string, m: string, o: string, e: string)
    ensures (b + (w + (a + (m + o)))) + e == b + (w + (a + (m + (o + e))))
  {
    Assoc(b, w + (a + (m + o)), e);
    Assoc(w, a + (m + o), e);
    Assoc(a, m + o, e);
    Assoc(m, o, e);
  }

  lemma SameItems(a: string, b: string)
    requires SkipBlanks(a) == SkipBlanks(b)
    ensures ItemsAt(a) == ItemsAt(b)
  {
    hide ValueAt, MoreItemsAt;
  }

  lemma {:induction false} ItemsRead(items: seq<Item>, rest: string)
    requires items != [] && forall i :: 0 <= i < |items| ==> ItemOK(items[i])
    ensures ItemsAt(ItemsWritten(items) + ("]" + rest)) == Ok(ItemsMeaning(items), rest)
    decreases items, 0
  {
    var i, others, end := items[0], ItemsWritten(items[1..]), "]" + rest;
    var next := Between(items) + (others + end);
    var tail := i.after + next;
    Regroup(i.before, Written(i.value), i.after, Between(items), others, end);
    if |items| > 1 {
      ItemsRead(items[1..], rest);
      assert next == "," + (others + end) && next[0] == ',' && next[1..] == others + end;
    } else {
      assert next == end && next[0] == ']' && next[1..] == rest;
    }
    assert ItemOK(i);
    AfterValue(i.after, next);
    ValueRead(i.value, tail);
    ItemStarts(i, tail);
    hide Written, ItemsWritten, ValueAt, SkipBlanks, Meaning, ItemsMeaning, ItemOK;
    OneItem(ItemsWritten(items) + end, Written(i.value) + tail, tail, next, Meaning(i.value));
    MoreItems(items, next, rest);
  }

  lemma OneItem(s: string, x: string, tail: string, next: string, t: Json)
    requires SkipBlanks(s) == x && ValueAt(x) == Ok(t, tail) && SkipBlanks(tail) == next
    ensures ItemsAt(s) == Prepend([t], MoreItemsAt(next))
  {
    hide ValueAt, MoreItemsAt, SkipBlanks;
  }

  lemma MoreItems(items: seq<Item>, next: string, rest: string)
    requires items != [] && forall i :: 0 <= i < |items| ==> ItemOK(items[i])
    requires if |items| > 1
             then next != [] && next[0] == ',' && ItemsAt(next[1..]) == Ok(ItemsMeaning(items[1..]), rest)
             else next != [] && next[0] == ']' && next[1..] == rest
    ensures ItemOK(items[0]) && WellFormed(items[0].value)
    ensures Prepend([Meaning(items[0].value)], MoreItemsAt(next)) == Ok(ItemsMeaning(items), rest)
  {
    assert ItemOK(items[0]);
    hide Meaning, ItemsAt, WellFormed, AllBlank;
    assert |items| == 1 ==> items[1..] == [];
  }

  lemma {:induction false} ArrayRead(blank: string, items: seq<Item>, rest: string)
    requires WellFormed(Array(blank, items))
    ensures ValueAt(Written(Array(blank, items)) + rest) == Ok(Meaning(Array(blank, items)), rest)
    decreases items, 1
  {
    var inside := if items == [] then blank else ItemsWritten(items);
    var s1 := inside + ("]" + rest);
    ArrayStarts(blank, items, inside, rest);
    if items == [] {
      SkipOver(blank, "]" + rest);
      EmptyArray(rest);
    } else {
      ItemsRead(items, rest);
      assert ItemOK(items[0]);
      var i, others := items[0], ItemsWritten(items[1..]);
      Regroup(i.before, Written(i.value), i.after, Between(items), others, "]" + rest);
      ItemStarts(i, i.after + (Between(items) + (others + ("]" + rest))));
      SameItems(SkipBlanks(s1), s1);
    }
    hide Written, ItemsWritten, ItemsAt, SkipBlanks, ItemsMeaning, ValueAt, ItemOK, AllBlank;
  }

  lemma ArrayStarts(blank: string, items: seq<Item>, inside: string, rest: string)
    requires WellFormed(Array(blank, items)) && inside == if items == [] then blank else ItemsWritten(items)
    ensures ValueAt(Written(Array(blank, items)) + rest) == ArrayAt(SkipBlanks(inside + ("]" + rest)))
  {
    hide ItemsWritten, ArrayAt, SkipBlanks, NumberAt, StringAt, ObjectAt, ItemOK, AllBlank;
    var s := Written(Array(blank, items)) + rest;
    Brackets("[", inside, "]", rest);
    NotWord(s);
    assert s[0] == '[' && s[1..] == inside + ("]" + rest);
  }

  lemma FieldParts(f: Field, sep: string, others: string, end: string)
    ensures var q, w := Quoted(f.name), Written(f.value);
            (f.before + (q + (f.mid + (":" + (f.gap + (w + (f.after + (sep + others)))))))) + end ==
            f.before + (q + (f.mid + (":" + (f.gap + (w + (f.after + (sep + (others + end))))))))
  {
    var q, w := Quoted(f.name), Written(f.value);
    hide Quoted, Written;
    Regroup(f.gap, w, f.after, sep, others, end);
    var v := f.gap + (w + (f.after + (sep + others)));
    Assoc(f.before, q + (f.mid + (":" + v)), end);
    Assoc(q, f.mid + (":" + v), end);
    Assoc(f.mid, ":" + v, end);
    Assoc(":", v, end);
  }

  /** The name, the colon and the value of a field. */
  lemma FieldRead(f: Field, tail: string)
    requires FieldOK(f) && (f.value.Number? ==> EndsNumber(tail))
    requires ValueAt(Written(f.value) + tail) == Ok(Meaning(f.value), tail)
    ensures var x := Quoted(f.name) + (f.mid + (":" + (f.gap + (Written(f.value) + tail))));
            && MemberAt(f.before + x) == MemberAt(x) == Ok(Member(PiecesMeaning(f.name), Meaning(f.value)), tail)
            && SkipBlanks(f.before + x) == x == SkipBlanks(x) && x != [] && x[0] == '\"'
  {
    var value := Written(f.value) + tail;
    var v := ":" + (f.gap + value);
    var x := Quoted(f.name) + (f.mid + v);
    Head(Text(f.name), f.mid + v);
    SkipOver(f.before, x);
    StringRead(f.name, f.mid + v);
    SkipOver(f.mid, v);
    assert SkipBlanks(v) == v && v[0] == ':' && v[1..] == f.gap + value;
    Head(f.value, tail);
    SkipOver(f.gap, value);
    hide Written, Quoted, ValueAt, StringAt, SkipBlanks, PiecesMeaning, Meaning, FieldOK;
    MemberReads(f.before + x, x, f.mid + v, v, f.gap + value, value, tail, PiecesMeaning(f.name), Meaning(f.value));
    MemberReads(x, x, f.mid + v, v, f.gap + value, value, tail, PiecesMeaning(f.name), Meaning(f.value));
  }

  lemma MemberReads(s: string, x: string, rest: string, v: string, rest2: string, w: string, tail: string,
                    name: string, t: Json)
    requires SkipBlanks(s) == x && StringAt(x) == Ok(name, rest) && SkipBlanks(rest) == v
    requires v != [] && v[0] == ':' && v[1..] == rest2 && SkipBlanks(rest2) == w && ValueAt(w) == Ok(t, tail)
    ensures MemberAt(s) == Ok(Member(name, t), tail)
  {
    hide ValueAt, StringAt, SkipBlanks;
  }

  lemma {:induction false} FieldsRead(fs: seq<Field>, rest: string)
    requires fs != [] && forall i :: 0 <= i < |fs| ==> FieldOK(fs[i])
    ensures var s := FieldsWritten(fs) + ("}" + rest);
            && MembersAt(s) == Ok(FieldsMeaning(fs), rest) && MembersAt(SkipBlanks(s)) == MembersAt(s)
            && SkipBlanks(s) != [] && SkipBlanks(s)[0] == '\"'
    decreases fs, 0
  {
    var f, others, end := fs[0], FieldsWritten(fs[1..]), "}" + rest;
    var next := Between(fs) + (others + end);
    var tail := f.after + next;
    FieldParts(f, Between(fs), others, end);
    if |fs| > 1 {
      FieldsRead(fs[1..], rest);
      assert next == "," + (others + end) && next[0] == ',' && next[1..] == others + end;
    } else {
      assert next == end && next[0] == '}' && next[1..] == rest;
    }
    assert FieldOK(f);
    AfterValue(f.after, next);
    ValueRead(f.value, tail);
    FieldRead(f, tail);
    hide Written, FieldsWritten, Quoted, ValueAt, SkipBlanks, Meaning, FieldsMeaning, PiecesMeaning, FieldOK, MemberAt;
    var s := FieldsWritten(fs) + end;
    OneMember(s, tail, next, Member(PiecesMeaning(f.name), Meaning(f.value)));
    OneMember(SkipBlanks(s), tail, next, Member(PiecesMeaning(f.name), Meaning(f.value)));
    MoreFields(fs, next, rest);
  }

  lemma OneMember(s: string, tail: string, next: string, m: Member)
    requires MemberAt(s) == Ok(m, tail) && SkipBlanks(tail) == next
    ensures MembersAt(s) == Prepend([m], MoreMembersAt(next))
  {
    hide MemberAt, MoreMembersAt, SkipBlanks;
  }

  lemma MoreFields(fs: seq<Field>, next: string, rest: string)
    requires fs != [] && forall i :: 0 <= i < |fs| ==> FieldOK(fs[i])
    requires if |fs| > 1
             then next != [] && next[0] == ',' && MembersAt(next[1..]) == Ok(FieldsMeaning(fs[1..]), rest)
             else next != [] && next[0] == '}' && next[1..] == rest
    ensures FieldOK(fs[0]) && PiecesOK(fs[0].name) && WellFormed(fs[0].value)
    ensures Prepend([Member(PiecesMeaning(fs[0].name), Meaning(fs[0].value))], MoreMembersAt(next)) ==
            Ok(FieldsMeaning(fs), rest)
  {
    assert FieldOK(fs[0]);
    hide Meaning, MembersAt, PiecesMeaning, WellFormed, PiecesOK, AllBlank;
    assert |fs| == 1 ==> fs[1..] == [];
  }

  lemma {:induction false} ObjectRead(blank: string, fs: seq<Field>, rest: string)
    requires WellFormed(Object(blank, fs))
    ensures ValueAt(Written(Object(blank, fs)) + rest) == Ok(Meaning(Object(blank, fs)), rest)
    decreases fs, 1
  {
    hide Written, FieldsWritten, MembersAt, ObjectAt, SkipBlanks, ValueAt, FieldOK, AllBlank;
    if fs == [] {
      NoFields(blank, rest);
    } else {
      ObjectStarts(blank, fs, FieldsWritten(fs), rest);
      FieldsRead(fs, rest);
      MembersOf(SkipBlanks(FieldsWritten(fs) + ("}" + rest)), FieldsMeaning(fs), rest);
    }
  }

  lemma NoFields(blank: string, rest: string)
    requires AllBlank(blank)
    ensures ValueAt(Written(Object(blank, [])) + rest) == Ok(Obj([]), rest)
  {
    hide Written, ObjectAt, SkipBlanks, ValueAt, AllBlank;
    ObjectStarts(blank, [], blank, rest);
    SkipOver(blank, "}" + rest);
    EmptyObjectRead(rest);
  }

  lemma MembersOf(x: string, ms: seq<Member>, rest: string)
    requires x != [] && x[0] == '\"' && MembersAt(x) == Ok(ms, rest)
    ensures ObjectAt(x) == Ok(Obj(ms), rest)
  {
    hide MembersAt;
  }

  lemma ObjectStarts(blank: string, fs: seq<Field>, inside: string, rest: string)
    requires WellFormed(Object(blank, fs)) && inside == if fs == [] then blank else FieldsWritten(fs)
    ensures ValueAt(Written(Object(blank, fs)) + rest) == ObjectAt(SkipBlanks(inside + ("}" + rest)))
  {
    hide FieldsWritten, ObjectAt, SkipBlanks, NumberAt, StringAt, ArrayAt, FieldOK, AllBlank;
    var s := Written(Object(blank, fs)) + rest;
    Brackets("{", inside, "}", rest);
    NotWord(s);
    assert s[0] == '{' && s[1..] == inside + ("}" + rest);
  }

  lemma EmptyObjectRead(rest: string)
    ensures ObjectAt(SkipBlanks("}" + rest)) == Ok(Obj([]), rest)
  {
    var s := "}" + rest;
    assert s[0] == '}' && s[1..] == rest;
    hide MembersAt;
  }

  /** A whole text, with blanks in front, is read as what it means and consumed, whatever of the
      standard's freedom it uses. */
  lemma TextRead(blank: string, x: Syntax)
    requires WellFormed(x) && AllBlank(blank)
    ensures ValueAt(SkipBlanks(blank + Written(x))) == Ok(Meaning(x), [])
  {
    ValueRead(x, []);
    Head(x, []);
    SkipOver(blank, Written(x));
    assert Written(x) + [] == Written(x);
  }

  // ---------- what is read, of any text ----------

  /** The first character decides what kind of value is read; no other text is read at all. */
  lemma KindRead(s: string)
    ensures var p := ValueAt(s);
            && (p.Ok? ==> s != [] && HeadOf(p.value, s[0]))
            && (s == [] || !(s[0] in "nft\"-[{" || IsDigit(s[0])) ==> p == Fail)
  {
    hide StringAt, ArrayAt, ObjectAt, NumberAt, SkipBlanks;
    if s != [] {
      NotWord(s);
      NumberKind(s);
      ArrayKind(SkipBlanks(s[1..]));
      ObjectKind(SkipBlanks(s[1..]));
    }
  }

  lemma NumberKind(s: string)
    ensures NumberAt(s).Ok? ==> NumberAt(s).value.Int?
  {
    hide Run, DecVal;
  }

  lemma ArrayKind(s: string)
    ensures ArrayAt(s).Ok? ==> ArrayAt(s).value.Arr?
  {
    hide ItemsAt;
  }

  lemma ObjectKind(s: string)
    ensures ObjectAt(s).Ok? ==> ObjectAt(s).value.Obj?
  {
    hide MembersAt;
  }

  /** What the parser takes beyond the standard: one leading zero, a sign without digits; and any
      character up to 32 for a blank. */
  lemma Lenient(n: nat, neg: bool, rest: string, c: char)
    requires 0 < n < TWO_64 && EndsNumber(rest)
    ensures MagnitudeAt("0" + (Decimal(n) + rest), neg) == Finish(neg, n, rest)
    ensures NumberAt("-" + rest) == Ok(Int(0, true), rest)
    ensures Blank(c) <==> c as int <= 32
  {
    OneZero(n, neg, rest);
    NoDigits(rest);
    hide MagnitudeAt, NumberAt, Decimal, Finish;
  }

  lemma OneZero(n: nat, neg: bool, rest: string)
    requires 0 < n < TWO_64 && EndsNumber(rest)
    ensures MagnitudeAt("0" + (Decimal(n) + rest), neg) == Finish(neg, n, rest)
  {
    var s := Decimal(n) + rest;
    hide ScaleAt, DecVal, Run;
    MagnitudeRead(n, neg, rest);
    ScaleRead("", n, neg, rest);
    assert "" + rest == rest;
    assert ("0" + s)[1..] == s && s[0] == Decimal(n)[0];
    hide Decimal, Finish;
  }

  lemma NoDigits(rest: string)
    requires EndsNumber(rest)
    ensures NumberAt("-" + rest) == Ok(Int(0, true), rest)
  {
    hide ScaleAt, Decimal;
    ScaleRead("", 0, true, rest);
    assert "" + rest == rest && ("-" + rest)[1..] == rest;
    RunOf("", rest);
    assert rest[..0] == [] && rest[0..] == rest;
    hide Run;
  }

  /** After an element or a member only a comma or the bracket is right, after a name only a colon. */
  lemma Separators(s: string)
    ensures s == [] || (s[0] != ',' && s[0] != ']') ==> MoreItemsAt(s) == Fail
    ensures s == [] || (s[0] != ',' && s[0] != '}') ==> MoreMembersAt(s) == Fail
    ensures var p := StringAt(SkipBlanks(s)); p.Ok? && !Starts(SkipBlanks(p.rest), ':') ==> MemberAt(s) == Fail
  {
    hide ValueAt, StringAt, SkipBlanks;
  }

  // ---------- the layout of printed text ----------

  lemma PrintedEmpty(depth: nat, fmt: bool)
    ensures ValueText(Arr([]), depth, fmt) == "[]"
    ensures ValueText(Obj([]), depth, fmt) == if fmt then "{\n" + Tabs(depth) + "}" else "{}"
    ensures Tabs(depth + 1) == "\t" + Tabs(depth) && Tabs(0) == ""
  {
    assert forall i :: 0 <= i < depth + 1 ==> Tabs(depth + 1)[i] == ("\t" + Tabs(depth))[i];
    hide Tabs;
  }

  lemma PrintedArray(x: Json, y: Json, depth: nat, fmt: bool)
    ensures ValueText(Arr([x, y]), depth, fmt) ==
            "[" + ValueText(x, depth + 1, fmt) + (if fmt then ", " else ",") + ValueText(y, depth + 1, fmt) + "]"
  {
    TwoItems(x, y, depth + 1, fmt);
    ArrayIs([x, y], depth, fmt);
    hide ValueText, ItemsText;
    var m := if fmt then ", " else ",";
    Four("[", ValueText(x, depth + 1, fmt), m, ValueText(y, depth + 1, fmt) + "]");
    Four(ValueText(x, depth + 1, fmt), m, ValueText(y, depth + 1, fmt), "]");
    Assoc("[" + ValueText(x, depth + 1, fmt) + m, ValueText(y, depth + 1, fmt), "]");
  }

  lemma ArrayIs(items: seq<Json>, depth: nat, fmt: bool)
    ensures ValueText(Arr(items), depth, fmt) == "[" + (ItemsText(items, depth + 1, fmt) + "]")
  {
  }

  lemma TwoItems(x: Json, y: Json, depth: nat, fmt: bool)
    ensures ItemsText([x, y], depth, fmt) ==
            ValueText(x, depth, fmt) + (if fmt then ", " else ",") + ValueText(y, depth, fmt)
  {
    hide ValueText;
    assert [x, y][1..] == [y] && [y][1..] == [];
    assert ItemsText([y], depth, fmt) == ValueText(y, depth, fmt);
    assert Comma(true, fmt) == if fmt then ", " else ",";
    Assoc(ValueText(x, depth, fmt), Comma(true, fmt), ValueText(y, depth, fmt));
  }

  /** One member on its line: indentation, name, colon and value. */
  function Line(m: Member, depth: nat, fmt: bool): string {
    if fmt then Tabs(depth) + StringText(m.name) + ":\t" + ValueText(m.value, depth, true)
    else StringText(m.name) + ":" + ValueText(m.value, depth, false)
  }

  lemma LineIs(m: Member, depth: nat, fmt: bool)
    ensures MemberText(m, depth, fmt) == Line(m, depth, fmt)
  {
    hide ValueText, StringText, Tabs;
  }

  lemma PrintedObject(m: Member, n: Member, depth: nat, fmt: bool)
    ensures ValueText(Obj([m, n]), depth, fmt) ==
            (if fmt then "{\n" else "{") +
            (Line(m, depth + 1, fmt) + (if fmt then ",\n" else ",") + Line(n, depth + 1, fmt)) +
            (if fmt then "\n" + Tabs(depth) + "}" else "}")
  {
    LineIs(m, depth + 1, fmt);
    LineIs(n, depth + 1, fmt);
    TwoLines(m, n, depth + 1, fmt);
    ObjectIs([m, n], depth, fmt);
    hide ValueText, MemberText, MembersText, Line, Tabs;
    var lines := Line(m, depth + 1, fmt) + (if fmt then ",\n" else ",") + Line(n, depth + 1, fmt);
    if fmt {
      Assoc(lines, "\n", Tabs(depth) + "}");
      Assoc("\n", Tabs(depth), "}");
      Assoc("{\n", lines + "\n", Tabs(depth) + "}");
      Assoc("{\n", lines, "\n" + (Tabs(depth) + "}"));
    } else {
      assert lines + "" == lines;
    }
  }

  lemma TwoLines(m: Member, n: Member, depth: nat, fmt: bool)
    ensures MembersText([m, n], depth, fmt) ==
            (MemberText(m, depth, fmt) + (if fmt then ",\n" else ",") + MemberText(n, depth, fmt)) + When(fmt, "\n")
  {
    hide MemberText;
    var a, b, sep, end := MemberText(m, depth, fmt), MemberText(n, depth, fmt), if fmt then ",\n" else ",", When(fmt, "\n");
    assert [m, n][1..] == [n] && [n][1..] == [];
    assert MembersText([n], depth, fmt) == b + end;
    Assoc(",", end, b + end);
    assert "," + end == sep;
    Four(a, sep, b, end);
  }

  lemma ObjectIs(ms: seq<Member>, depth: nat, fmt: bool)
    ensures ValueText(Obj(ms), depth, fmt) ==
            (if fmt then "{\n" else "{") + MembersText(ms, depth + 1, fmt) + (if fmt then Tabs(depth) + "}" else "}")
  {
    hide MembersText, Tabs;
  }
}

/** json_config.c: what is printed is a text of RFC 8259 that stands for the tree printed. */
module JsonPrinted {
  import opened JsonText
  import opened Json
  import opened JsonSyntax

  /** The blanks of the standard: space, tab, line feed and carriage return. */
  predicate Space(s: string) {
    forall i :: 0 <= i < |s| ==> s[i] as int == 32 || s[i] as int == 9 || s[i] as int == 10 || s[i] as int == 13
  }

  /** In the standard's strings control characters are escaped. */
  predicate Controlled(ps: seq<Piece>) { forall i :: 0 <= i < |ps| ==> PieceControlled(ps[i]) }

  predicate PieceControlled(p: Piece) { p.Plain? ==> p.c as int >= 32 }

  /** It uses no blank and no character that only this parser takes. */
  predicate Strict(x: Syntax) {
    match x
    case Literal(_) => true
    case Number(_, _, _) => true
    case Text(ps) => Controlled(ps)
    case Array(blank, items) => Space(blank) && forall i :: 0 <= i < |items| ==> ItemStrict(items[i])
    case Object(blank, fields) => Space(blank) && forall i :: 0 <= i < |fields| ==> FieldStrict(fields[i])
  }

  predicate ItemStrict(i: Item) { Space(i.before) && Space(i.after) && Strict(i.value) }

  predicate FieldStrict(f: Field) {
    Space(f.before) && Space(f.mid) && Space(f.gap) && Space(f.after) && Controlled(f.name) && Strict(f.value)
  }

  // ---------- strings ----------

  /** The letter of a character's short escape. */
  function LetterOf(c: char): char {
    if c == BACKSPACE then 'b'
    else if c == FORM_FEED then 'f'
    else if c == '\n' then 'n'
    else if c == '\r' then 'r'
    else if c == '\t' then 't'
    else c
  }

  function PieceOf(c: char): Piece {
    if HasShortEscape(c) then Short(LetterOf(c))
    else if c as int >= 32 then Plain(c)
    else Unit(c as int, ['0', '0', if c as int < 16 then '0' else '1', "0123456789abcdef"[c as int % 16]])
  }

  lemma PiecePrinted(c: char)
    requires c != '\0'
    ensures var p := PieceOf(c); PieceOK(p) && PieceControlled(p) && PieceText(p) == Escape(c) && PieceMeaning(p) == [c]
  {
    if !HasShortEscape(c) && c as int < 32 {
      UnitPrinted(c);
    }
  }

  lemma UnitPrinted(c: char)
    requires c != '\0' && !HasShortEscape(c) && c as int < 32
    ensures var p := PieceOf(c); PieceOK(p) && PieceText(p) == Escape(c) && PieceMeaning(p) == [c]
  {
    var n := c as int;
    LowDigit(n % 16);
    assert n / 16 == (if n < 16 then 0 else 1) && n / 0x1000 == 0 && n / 0x100 % 0x10 == 0;
    assert Utf8(n) == [c];
  }

  lemma LowDigit(d: nat)
    requires d < 16
    ensures Spells("0123456789abcdef"[d], d) && HexDigit(d) == "0123456789abcdef"[d]
  {
  }

  function PiecesOf(s: string): (ps: seq<Piece>)
    ensures |ps| == |s|
  {
    if s == [] then [] else [PieceOf(s[0])] + PiecesOf(s[1..])
  }

  lemma {:induction false} StringPrinted(s: string)
    requires NulFree(s)
    ensures var ps := PiecesOf(s);
            PiecesOK(ps) && Controlled(ps) && PiecesText(ps) == EscapeAll(s) && PiecesMeaning(ps) == s
  {
    if s != [] {
      hide PieceOK, PieceControlled, PieceText, PieceMeaning, PieceOf, Escape;
      PiecePrinted(s[0]);
      StringPrinted(s[1..]);
      var ps := PiecesOf(s);
      assert ps[0] == PieceOf(s[0]) && ps[1..] == PiecesOf(s[1..]);
      assert forall i :: 0 < i < |ps| ==> ps[i] == ps[1..][i - 1];
      assert s == [s[0]] + s[1..];
    }
  }

  // ---------- values ----------

  function SyntaxOf(t: Json, depth: nat, fmt: bool): Syntax
    decreases t
  {
    match t
    case Int(bits, signed) =>
      if signed && TWO_63 <= bits < TWO_64 then Number(true, TWO_64 - bits, []) else Number(false, bits, [])
    case Str(text) => Text(PiecesOf(text))
    case Arr(items) => Array([], ItemsOf(items, depth + 1, fmt, true))
    case Obj(members) => Object(When(fmt, "\n") + When(fmt, Tabs(depth)), FieldsOf(members, depth, fmt))
    case _ => Literal(t)
  }

  function ItemsOf(items: seq<Json>, depth: nat, fmt: bool, first: bool): (xs: seq<Item>)
    ensures |xs| == |items|
    decreases items
  {
    if items == [] then [] else
      [Item(if first then [] else When(fmt, " "), SyntaxOf(items[0], depth, fmt), [])] +
      ItemsOf(items[1..], depth, fmt, false)
  }

  /** The members of an object at this depth, each on a line of its own. */
  function FieldsOf(ms: seq<Member>, depth: nat, fmt: bool): (fs: seq<Field>)
    ensures |fs| == |ms|
    decreases ms
  {
    if ms == [] then [] else
      [FieldOf(ms[0].name, SyntaxOf(ms[0].value, depth + 1, fmt), depth, fmt, |ms| == 1)] +
      FieldsOf(ms[1..], depth, fmt)
  }

  function FieldOf(name: string, value: Syntax, depth: nat, fmt: bool, last: bool): Field {
    Field(When(fmt, "\n") + When(fmt, Tabs(depth + 1)), PiecesOf(name), [], When(fmt, "\t"), value,
          if last then When(fmt, "\n") + When(fmt, Tabs(depth)) else [])
  }

  lemma Spaces(depth: nat)
    ensures Space(Tabs(depth)) && Space("\n" + Tabs(depth)) && Space(" ") && Space("\t") && Space([])
  {
  }

  lemma SpaceBlank(s: string)
    requires Space(s)
    ensures AllBlank(s)
  {
  }

  /** Every tree prints as a text of the standard that stands for it. */
  lemma {:induction false} Printed(t: Json, depth: nat, fmt: bool)
    requires Valid(t)
    ensures var x := SyntaxOf(t, depth, fmt);
            WellFormed(x) && Strict(x) && Written(x) == ValueText(t, depth, fmt) && Meaning(x) == Canonical(t)
    decreases t, 1
  {
    match t
    case Int(bits, signed) => IntPrinted(bits, signed, depth, fmt);
    case Str(text) => TextPrinted(text, depth, fmt);
    case Arr(items) => ArrayPrinted(items, depth, fmt);
    case Obj(members) => ObjectPrinted(members, depth, fmt);
    case _ =>
  }

  lemma IntPrinted(bits: nat, signed: bool, depth: nat, fmt: bool)
    requires bits < TWO_64
    ensures var t := Int(bits, signed); var x := SyntaxOf(t, depth, fmt);
            WellFormed(x) && Strict(x) && Written(x) == ValueText(t, depth, fmt) && Meaning(x) == Canonical(t)
  {
    hide Decimal;
    IntTextParts(bits, signed);
    var n := if signed && bits >= TWO_63 then TWO_64 - bits else bits;
    assert Decimal(n) + [] == Decimal(n) && "" + Decimal(n) == Decimal(n);
  }

  lemma TextPrinted(text: string, depth: nat, fmt: bool)
    requires NulFree(text)
    ensures var t := Str(text); var x := SyntaxOf(t, depth, fmt);
            WellFormed(x) && Strict(x) && Written(x) == ValueText(t, depth, fmt) && Meaning(x) == Canonical(t)
  {
    hide EscapeAll, PiecesText, PiecesMeaning, PiecesOf, PiecesOK, Controlled;
    StringPrinted(text);
    Assoc("\"", EscapeAll(text), "\"");
  }

  lemma {:induction false} ArrayPrinted(items: seq<Json>, depth: nat, fmt: bool)
    requires Valid(Arr(items))
    ensures var t := Arr(items); var x := SyntaxOf(t, depth, fmt);
            WellFormed(x) && Strict(x) && Written(x) == ValueText(t, depth, fmt) && Meaning(x) == Canonical(t)
    decreases items, 1
  {
    hide ItemOK, ItemStrict, ItemsOf, ItemsWritten, ItemsText, ItemsMeaning, CanonicalItems, Valid;
    if items == [] {
      NoItemsPrinted(depth + 1, fmt);
    } else {
      assert forall i :: 0 <= i < |items| ==> Valid(items[i]) by { Elements(items); }
      ItemsPrinted(items, depth + 1, fmt, true);
    }
  }

  lemma Elements(items: seq<Json>)
    requires Valid(Arr(items))
    ensures forall i :: 0 <= i < |items| ==> Valid(items[i])
  {
  }

  lemma NoItemsPrinted(depth: nat, fmt: bool)
    ensures ItemsOf([], depth, fmt, true) == [] && ItemsText([], depth, fmt) == [] && CanonicalItems([]) == []
    ensures ItemsMeaning([]) == []
  {
  }

  lemma {:induction false} ItemsPrinted(items: seq<Json>, depth: nat, fmt: bool, first: bool)
    requires items != [] && forall i :: 0 <= i < |items| ==> Valid(items[i])
    ensures var xs := ItemsOf(items, depth, fmt, first);
            && (forall i :: 0 <= i < |xs| ==> ItemOK(xs[i])) && (forall i :: 0 <= i < |xs| ==> ItemStrict(xs[i]))
            && ItemsWritten(xs) == (if first then [] else When(fmt, " ")) + ItemsText(items, depth, fmt)
            && ItemsMeaning(xs) == CanonicalItems(items)
    decreases items, 0
  {
    hide SyntaxOf, ValueText, Written, Meaning, Canonical, WellFormed, Strict, Space, AllBlank, Valid;
    var xs, later := ItemsOf(items, depth, fmt, first), ItemsOf(items[1..], depth, fmt, false);
    Printed(items[0], depth, fmt);
    if |items| > 1 { ItemsPrinted(items[1..], depth, fmt, false); }
    Spaces(depth);
    SpaceBlank(xs[0].before);
    SpaceBlank([]);
    assert xs[1..] == later && forall i :: 0 < i < |xs| ==> xs[i] == later[i - 1];
    assert ItemOK(xs[0]) && ItemStrict(xs[0]);
    ItemsSpelled(xs, items, depth, fmt);
  }

  /** The text of the elements, one ahead of the others. */
  lemma ItemsSpelled(xs: seq<Item>, items: seq<Json>, depth: nat, fmt: bool)
    requires xs != [] && |xs| == |items| && xs[0].after == [] && Written(xs[0].value) == ValueText(items[0], depth, fmt)
    requires |items| > 1 ==> ItemsWritten(xs[1..]) == When(fmt, " ") + ItemsText(items[1..], depth, fmt)
    ensures ItemsWritten(xs) == xs[0].before + ItemsText(items, depth, fmt)
  {
    hide Written, ValueText;
    var more := ItemsText(items[1..], depth, fmt);
    if |items| > 1 {
      Assoc(",", When(fmt, " "), more);
    } else {
      assert ItemsWritten(xs[1..]) == [] && more == [];
    }
    assert [] + (Between(xs) + ItemsWritten(xs[1..])) == Comma(|items| > 1, fmt) + more;
  }

  lemma {:induction false} ObjectPrinted(ms: seq<Member>, depth: nat, fmt: bool)
    requires Valid(Obj(ms))
    ensures var t := Obj(ms); var x := SyntaxOf(t, depth, fmt);
            WellFormed(x) && Strict(x) && Written(x) == ValueText(t, depth, fmt) && Meaning(x) == Canonical(t)
    decreases ms, 1
  {
    hide FieldOK, FieldStrict, FieldsOf, FieldsWritten, MembersText, FieldsMeaning, CanonicalMembers, Valid, Tabs, Space,
         AllBlank;
    var nl, close := When(fmt, "\n"), When(fmt, Tabs(depth));
    Spaces(depth);
    assert !fmt ==> nl + close == [];
    SpaceBlank(nl + close);
    if ms == [] {
      NoFieldsPrinted(depth, fmt);
      assert [] + (close + "}") == close + "}";
    } else {
      assert forall i :: 0 <= i < |ms| ==> NulFree(ms[i].name) && Valid(ms[i].value) by { Values(ms); }
      FieldsPrinted(ms, depth, fmt);
      Assoc(MembersText(ms, depth + 1, fmt), close, "}");
      Assoc(nl, MembersText(ms, depth + 1, fmt) + close, "}");
    }
    Assoc(nl, close, "}");
  }

  lemma Values(ms: seq<Member>)
    requires Valid(Obj(ms))
    ensures forall i :: 0 <= i < |ms| ==> NulFree(ms[i].name) && Valid(ms[i].value)
  {
  }

  lemma NoFieldsPrinted(depth: nat, fmt: bool)
    ensures FieldsOf([], depth, fmt) == [] && MembersText([], depth + 1, fmt) == [] && CanonicalMembers([]) == []
    ensures FieldsMeaning([]) == []
  {
  }

  lemma {:induction false} FieldsPrinted(ms: seq<Member>, depth: nat, fmt: bool)
    requires ms != [] && forall i :: 0 <= i < |ms| ==> NulFree(ms[i].name) && Valid(ms[i].value)
    ensures var fs := FieldsOf(ms, depth, fmt);
            && (forall i :: 0 <= i < |fs| ==> FieldOK(fs[i])) && (forall i :: 0 <= i < |fs| ==> FieldStrict(fs[i]))
            && FieldsWritten(fs) == When(fmt, "\n") + (MembersText(ms, depth + 1, fmt) + When(fmt, Tabs(depth)))
            && FieldsMeaning(fs) == CanonicalMembers(ms)
    decreases ms, 0
  {
    hide SyntaxOf, ValueText, Written, Meaning, Canonical, WellFormed, Strict, FieldsWritten, MembersText, FieldOK,
         FieldStrict, PiecesOK, Controlled, PiecesText, PiecesMeaning, EscapeAll, PiecesOf, Tabs, Valid, NulFree;
    var fs, later := FieldsOf(ms, depth, fmt), FieldsOf(ms[1..], depth, fmt);
    var value := SyntaxOf(ms[0].value, depth + 1, fmt);
    Printed(ms[0].value, depth + 1, fmt);
    StringPrinted(ms[0].name);
    if |ms| > 1 { FieldsPrinted(ms[1..], depth, fmt); }
    OneField(ms[0].name, value, depth, fmt, |ms| == 1);
    FieldsSpelled(fs, ms, value, depth, fmt);
    assert fs[1..] == later && forall i :: 0 < i < |fs| ==> fs[i] == later[i - 1];
  }

  lemma OneField(name: string, value: Syntax, depth: nat, fmt: bool, last: bool)
    requires WellFormed(value) && Strict(value) && NulFree(name)
    ensures var f := FieldOf(name, value, depth, fmt, last);
            FieldOK(f) && FieldStrict(f) && PiecesMeaning(f.name) == name
  {
    hide WellFormed, Strict, Space, AllBlank, PiecesOK, Controlled, PiecesMeaning, PiecesOf, Tabs;
    StringPrinted(name);
    var f := FieldOf(name, value, depth, fmt, last);
    Spaces(depth);
    Spaces(depth + 1);
    assert !fmt ==> f.before == [] && f.after == [];
    SpaceBlank(f.before);
    SpaceBlank(f.after);
    SpaceBlank(f.gap);
    SpaceBlank([]);
  }

  /** The text of the members, one ahead of the others. */
  lemma {:induction false} FieldsSpelled(fs: seq<Field>, ms: seq<Member>, value: Syntax, depth: nat, fmt: bool)
    requires ms != [] && |fs| == |ms| && fs[0] == FieldOf(ms[0].name, value, depth, fmt, |ms| == 1)
    requires NulFree(ms[0].name) && Written(value) == ValueText(ms[0].value, depth + 1, fmt)
    requires |ms| > 1 ==>
               FieldsWritten(fs[1..]) ==
               When(fmt, "\n") + (MembersText(ms[1..], depth + 1, fmt) + When(fmt, Tabs(depth)))
    ensures FieldsWritten(fs) == When(fmt, "\n") + (MembersText(ms, depth + 1, fmt) + When(fmt, Tabs(depth)))
  {
    hide Written, ValueText, StringText, Quoted, Tabs, PiecesOf, EscapeAll, PiecesText;
    var nl, close, more := When(fmt, "\n"), When(fmt, Tabs(depth)), MembersText(ms[1..], depth + 1, fmt);
    var comma, f := When(|ms| > 1, ","), fs[0];
    NamePrinted(ms[0].name);
    var tail := comma + (nl + (more + close));
    assert f.after + (Between(fs) + FieldsWritten(fs[1..])) == tail by {
      if |ms| == 1 {
        assert fs[1..] == [] && ms[1..] == [] && more == [];
        assert (nl + close) + ([] + []) == [] + (nl + ([] + close));
      } else {
        assert [] + tail == tail;
      }
    }
    var v := Written(value);
    Assoc(comma, nl + more, close);
    Assoc(nl, more, close);
    var indent, q := When(fmt, Tabs(depth + 1)), StringText(ms[0].name);
    Grouped(nl, indent, q, f.gap, v, comma + (nl + more), close, tail);
    assert MemberText(ms[0], depth + 1, fmt) == indent + (q + (":" + (f.gap + v)));
  }

  lemma NamePrinted(name: string)
    requires NulFree(name)
    ensures Quoted(PiecesOf(name)) == StringText(name)
  {
    hide PiecesOf, EscapeAll, PiecesText, PiecesMeaning;
    StringPrinted(name);
    Assoc("\"", EscapeAll(name), "\"");
  }

  lemma Grouped(nl: string, indent: string, q: string, gap: string, v: string, m: string, close: string, tail: string)
    requires m + close == tail
    ensures (nl + indent) + (q + ([] + (":" + (gap + (v + tail))))) ==
            nl + (((indent + (q + (":" + (gap + v)))) + m) + close)
  {
    Assoc(indent + (q + (":" + (gap + v))), m, close);
    Assoc(indent, q + (":" + (gap + v)), tail);
    Assoc(q, ":" + (gap + v), tail);
    Assoc(":", gap + v, tail);
    Assoc(gap, v, tail);
    Assoc(nl, indent, q + (":" + (gap + (v + tail))));
    assert [] + (":" + (gap + (v + tail))) == ":" + (gap + (v + tail));
  }
}

/** json_config.c: printing and parsing of whole values. */
module Json {
  import opened JsonText

  /** `bits` is the 64-bit `valueint`, `signed` says whether `sign` is -1. */
  datatype Json =
    | Null | False | True
    | Int(bits: nat, signed: bool)
    | Str(text: string)
    | Arr(items: seq<Json>)
    | Obj(members: seq<Member>)

  datatype Member = Member(name: string, value: Json)

  ghost predicate Valid(t: Json) {
    match t
    case Int(bits, _) => bits < TWO_64
    case Str(text) => NulFree(text)
    case Arr(items) => forall i :: 0 <= i < |items| ==> Valid(items[i])
    case Obj(members) => forall i :: 0 <= i < |members| ==> NulFree(members[i].name) && Valid(members[i].value)
    case _ => true
  }

  // ---------- integers ----------

  function ToInt64(bits: nat): int { if bits < TWO_63 then bits else bits - TWO_64 }

  /** The low 32 bits read as a signed number. */
  function ToInt32(bits: nat): int {
    var low := bits % 0x1_0000_0000;
    if low < 0x8000_0000 then low else low - 0x1_0000_0000
  }

  function Signed(v: int): string { if v < 0 then "-" + Decimal(-v) else Decimal(v) }

  function IntText(bits: nat, signed: bool): string {
    if signed then Signed(ToInt64(bits)) else Decimal(bits)
  }

  lemma NarrowSigned(bits: nat)
    requires bits < TWO_64 && -0x8000_0000 <= ToInt64(bits) <= 0x7FFF_FFFF
    ensures ToInt32(bits) == ToInt64(bits)
  {
    if bits >= TWO_63 {
      assert bits == 0xFFFF_FFFF * 0x1_0000_0000 + (bits - 0xFFFF_FFFF * 0x1_0000_0000);
    }
  }

  /** print_int: the 32-bit branches lose nothing. */
  method PrintInt(bits: nat, signed: bool) returns (text: string)
    requires bits < TWO_64
    ensures text == IntText(bits, signed)
  {
    hide Decimal, Signed, ToInt32;
    if signed {
      if -0x8000_0000 <= ToInt64(bits) <= 0x7FFF_FFFF {
        NarrowSigned(bits);
        text := Signed(ToInt32(bits));
      } else {
        text := Signed(ToInt64(bits));
      }
    } else if bits <= 0xFFFF_FFFF {
      text := Decimal(bits % 0x1_0000_0000);
    } else {
      text := Decimal(bits);
    }
  }

  /** The integer stored for a sign and a magnitude, in 64-bit unsigned arithmetic. */
  function Finish(neg: bool, n: nat, rest: string): Parsed<Json> {
    if n >= TWO_64 then Beyond
    else Ok(Int(if neg then (TWO_64 - n) % TWO_64 else n, neg), rest)
  }

  function NumberAt(s: string): (p: Parsed<Json>)
    ensures p.Ok? && s != [] && (s[0] == '-' || IsDigit(s[0])) ==> |p.rest| < |s|
  {
    if Starts(s, '-') then MagnitudeAt(s[1..], true) else MagnitudeAt(s, false)
  }

  function MagnitudeAt(s: string, neg: bool): (p: Parsed<Json>)
    ensures p.Ok? ==> |p.rest| <= |s| && (s != [] && IsDigit(s[0]) ==> |p.rest| < |s|)
  {
    var digits := if Starts(s, '0') then s[1..] else s;
    var k := if Starts(digits, '0') then 0 else Run(digits);
    ScaleAt(digits[k..], DecVal(digits[..k]), neg)
  }

  /** A fraction or an exponent other than zero makes the number a double. */
  function ScaleAt(s: string, n: nat, neg: bool): (p: Parsed<Json>)
    ensures p.Ok? ==> |p.rest| <= |s|
  {
    if Starts(s, '.') && |s| > 1 && IsDigit(s[1]) then Beyond
    else if Starts(s, 'e') || Starts(s, 'E') then
      var exponent := if Starts(s[1..], '+') || Starts(s[1..], '-') then s[2..] else s[1..];
      var m := Run(exponent);
      if DecVal(exponent[..m]) == 0 then Finish(neg, n, exponent[m..]) else Beyond
    else Finish(neg, n, s)
  }

  /** parse_number, up to the point where the number turns out not to be an integer */
  method ParseNumber(num0: string) returns (p: Parsed<Json>)
    ensures p == NumberAt(num0)
  {
    var num, sign := num0, 1;
    if Starts(num, '-') {
      sign, num := -1, num[1..];
    }
    ghost var unsigned := num;
    if Starts(num, '0') {
      num := num[1..];
    }
    var n: nat := 0;
    if num != [] && '1' <= num[0] <= '9' {
      n, num := DigitLoop(num);
    } else {
      assert num[..0] == [] && num[0..] == num;
    }
    assert MagnitudeAt(unsigned, sign == -1) == ScaleAt(num, n, sign == -1);
    p := ParseScale(num, n, sign);
  }

  method ParseScale(num0: string, n: nat, sign: int) returns (p: Parsed<Json>)
    requires sign == 1 || sign == -1
    ensures p == ScaleAt(num0, n, sign == -1)
  {
    var num, subscale: nat := num0, 0;
    if Starts(num, '.') && |num| > 1 && IsDigit(num[1]) {
      return Beyond;
    }
    if Starts(num, 'e') || Starts(num, 'E') {
      num := num[1..];
      if Starts(num, '+') || Starts(num, '-') {
        num := num[1..];
      }
      subscale, num := DigitLoop(num);
    }
    if subscale != 0 || n >= TWO_64 {
      return Beyond;
    }
    Wrapped(n);
    p := Ok(Int(sign * n % TWO_64, sign == -1), num);
  }

  lemma Wrapped(n: nat)
    requires n < TWO_64
    ensures n % TWO_64 == n && -1 * n % TWO_64 == (TWO_64 - n) % TWO_64
  {
  }

  /** What may not follow an integer, lest it be read on. */
  predicate EndsNumber(rest: string) {
    rest == [] || !(IsDigit(rest[0]) || rest[0] == '.' || rest[0] == 'e' || rest[0] == 'E')
  }

  lemma MagnitudeRoundTrip(n: nat, neg: bool, rest: string)
    requires n < TWO_64 && EndsNumber(rest)
    ensures MagnitudeAt(Decimal(n) + rest, neg) == Finish(neg, n, rest)
  {
    var ds, s := Decimal(n), Decimal(n) + rest;
    if n == 0 {
      assert s[1..] == rest;
      assert rest[..0] == [] && rest[0..] == rest;
    } else {
      RunOf(ds, rest);
      DecimalValue(n);
      hide Decimal, DecVal, Run;
      assert s[0] == ds[0] && s[..|ds|] == ds && s[|ds|..] == rest;
    }
  }

  lemma IntTextParts(bits: nat, signed: bool)
    requires bits < TWO_64
    ensures IntText(bits, signed) ==
            if signed && bits >= TWO_63 then "-" + Decimal(TWO_64 - bits) else Decimal(bits)
  {
    hide Decimal;
  }

  lemma NumberHead(n: nat, rest: string)
    ensures NumberAt("-" + (Decimal(n) + rest)) == MagnitudeAt(Decimal(n) + rest, true)
    ensures NumberAt(Decimal(n) + rest) == MagnitudeAt(Decimal(n) + rest, false)
  {
    hide MagnitudeAt, Decimal;
    var s := Decimal(n) + rest;
    assert ("-" + s)[1..] == s;
    assert s[0] == Decimal(n)[0];
  }

  lemma IntRoundTrip(bits: nat, signed: bool, rest: string)
    requires bits < TWO_64 && EndsNumber(rest)
    ensures NumberAt(IntText(bits, signed) + rest) == Ok(Int(bits, signed && bits >= TWO_63), rest)
  {
    hide Decimal, MagnitudeAt, NumberAt, IntText;
    var neg := signed && bits >= TWO_63;
    var n: nat := if neg then TWO_64 - bits else bits;
    MagnitudeRoundTrip(n, neg, rest);
    IntTextParts(bits, signed);
    NumberHead(n, rest);
    Assoc("-", Decimal(n), rest);
  }

  // ---------- whole values: printing ----------

  function Tabs(n: nat): (s: string)
    ensures |s| == n && AllBlank(s)
  {
    seq(n, i => '\t')
  }

  function When(fmt: bool, s: string): string { if fmt then s else [] }

  function ValueText(t: Json, depth: nat, fmt: bool): string
    decreases t
  {
    match t
    case Null => "null"
    case False => "false"
    case True => "true"
    case Int(bits, signed) => IntText(bits, signed)
    case Str(text) => StringText(text)
    case Arr(items) => "[" + (ItemsText(items, depth + 1, fmt) + "]")
    case Obj(members) =>
      "{" + (When(fmt, "\n") + (MembersText(members, depth + 1, fmt) + (When(fmt, Tabs(depth)) + "}")))
  }

  function Comma(more: bool, fmt: bool): string { if more then "," + When(fmt, " ") else [] }

  function ItemsText(items: seq<Json>, depth: nat, fmt: bool): string
    decreases items
  {
    if items == [] then []
    else ValueText(items[0], depth, fmt) + (Comma(|items| > 1, fmt) + ItemsText(items[1..], depth, fmt))
  }

  function MemberTail(m: Member, depth: nat, fmt: bool): string
    decreases m, 0
  {
    ":" + (When(fmt, "\t") + ValueText(m.value, depth, fmt))
  }

  function MemberText(m: Member, depth: nat, fmt: bool): string
    decreases m, 1
  {
    When(fmt, Tabs(depth)) + (StringText(m.name) + MemberTail(m, depth, fmt))
  }

  function MembersText(ms: seq<Member>, depth: nat, fmt: bool): string
    decreases ms
  {
    if ms == [] then []
    else MemberText(ms[0], depth, fmt) + (When(|ms| > 1, ",") + (When(fmt, "\n") + MembersText(ms[1..], depth, fmt)))
  }

  /** strcpy, at a place in the output buffer */
  method PutText(out: array<char>, at: nat, s: string) returns (next: nat)
    requires at + |s| < out.Length
    modifies out
    ensures next == at + |s| && out[..next] == old(out[..at]) + s
  {
    for i := 0 to |s|
      invariant out[..at + i] == old(out[..at]) + s[..i]
    {
      out[at + i] := s[i];
    }
    next := at + |s|;
    assert s[..|s|] == s;
    ghost var done := out[..next];
    out[next] := '\0';
    assert out[..next] == done;
  }

  /** print_value */
  method PrintValue(item: Json, depth: nat, fmt: bool) returns (text: string)
    requires Valid(item)
    ensures text == ValueText(item, depth, fmt)
    decreases item
  {
    match item
    case Null => text := "null";
    case False => text := "false";
    case True => text := "true";
    case Int(bits, signed) => text := PrintInt(bits, signed);
    case Str(s) => text := PrintStringPtr(s);
    case Arr(items) => text := PrintArray(items, depth, fmt);
    case Obj(members) => text := PrintObject(members, depth, fmt);
  }

  /** The room print_array sets aside for the elements. */
  ghost function ItemsRoom(items: seq<Json>, depth: nat, fmt: bool): nat {
    if items == [] then 0
    else |ValueText(items[0], depth, fmt)| + 2 + (if fmt then 1 else 0) + ItemsRoom(items[1..], depth, fmt)
  }

  /** print_array: all elements first, then one buffer of the size they call for. */
  method PrintArray(items: seq<Json>, depth: nat, fmt: bool) returns (text: string)
    requires forall i :: 0 <= i < |items| ==> Valid(items[i])
    ensures text == ValueText(Arr(items), depth, fmt)
    decreases items
  {
    var entries := new string[|items|];
    var len: nat, i: nat := 5, 0;
    assert items[0..] == items;
    while i < |items|
      invariant i <= |items| && len + ItemsRoom(items[i..], depth + 1, fmt) == 5 + ItemsRoom(items, depth + 1, fmt)
      invariant forall j :: 0 <= j < i ==> entries[j] == ValueText(items[j], depth + 1, fmt)
    {
      assert items[i..][1..] == items[i + 1..];
      var ret := PrintValue(items[i], depth + 1, fmt);
      entries[i] := ret;
      len := len + |ret| + 2 + (if fmt then 1 else 0);
      i := i + 1;
    }
    text := JoinItems(entries, len, items, depth + 1, fmt);
  }

  lemma ItemsStep(done: string, todo: seq<Json>, depth: nat, fmt: bool)
    requires todo != []
    ensures done + ItemsText(todo, depth, fmt) ==
            (done + ValueText(todo[0], depth, fmt) + Comma(|todo| > 1, fmt)) + ItemsText(todo[1..], depth, fmt)
    ensures |Comma(|todo| > 1, fmt)| <= if fmt then 2 else 1
    ensures ItemsRoom(todo, depth, fmt) ==
            |ValueText(todo[0], depth, fmt)| + 2 + (if fmt then 1 else 0) + ItemsRoom(todo[1..], depth, fmt)
  {
    Four(done, ValueText(todo[0], depth, fmt), Comma(|todo| > 1, fmt), ItemsText(todo[1..], depth, fmt));
    hide ValueText;
  }

  lemma Assoc(a: string, b: string, c: string)
    ensures (a + b) + c == a + (b + c)
  {
  }

  lemma Four(a: string, b: string, c: string, d: string)
    ensures (a + b + c) + d == a + (b + (c + d))
  {
    Assoc(a + b, c, d);
    Assoc(a, b, c + d);
  }

  lemma Five(a: string, b: string, c: string, d: string, e: string)
    ensures (a + b + c + d) + e == a + (b + (c + (d + e)))
  {
    Assoc(a + b + c, d, e);
    Four(a, b, c, d + e);
  }

  /** The second half of print_array; the separator is written only between elements. */
  method JoinItems(entries: array<string>, len: nat, ghost items: seq<Json>, ghost depth: nat, fmt: bool)
      returns (text: string)
    requires entries.Length == |items| && len == 5 + ItemsRoom(items, depth, fmt)
    requires forall j :: 0 <= j < |items| ==> entries[j] == ValueText(items[j], depth, fmt)
    ensures text == "[" + (ItemsText(items, depth, fmt) + "]")
  {
    var out := new char[len];
    out[0] := '[';
    var ptr: nat, i: nat := 1, 0;
    assert items[0..] == items && out[..1] == "[";
    while i < entries.Length
      invariant i <= |items| && ptr + ItemsRoom(items[i..], depth, fmt) + 4 <= len
      invariant out[..ptr] + ItemsText(items[i..], depth, fmt) == "[" + ItemsText(items, depth, fmt)
    {
      hide ValueText, Comma, ItemsText, ItemsRoom;
      ghost var done, todo := out[..ptr], items[i..];
      assert todo[1..] == items[i + 1..];
      ItemsStep(done, todo, depth, fmt);
      ptr := PutText(out, ptr, entries[i]);
      var separator := Comma(i != entries.Length - 1, fmt);
      ptr := PutText(out, ptr, separator);
      assert out[..ptr] == done + entries[i] + separator;
      i := i + 1;
    }
    assert items[i..] == [] && out[..ptr] + [] == out[..ptr];
    hide ValueText, ItemsText, ItemsRoom;
    ptr := PutText(out, ptr, "]");
    text := out[..ptr];
    Assoc("[", ItemsText(items, depth, fmt), "]");
  }

  ghost function MembersRoom(ms: seq<Member>, depth: nat, fmt: bool): nat {
    if ms == [] then 0
    else
      |StringText(ms[0].name)| + |ValueText(ms[0].value, depth, fmt)| + 2 + (if fmt then 2 + depth else 0)
      + MembersRoom(ms[1..], depth, fmt)
  }

  /** print_object */
  method PrintObject(members: seq<Member>, depth0: nat, fmt: bool) returns (text: string)
    requires forall i :: 0 <= i < |members| ==> NulFree(members[i].name) && Valid(members[i].value)
    ensures text == ValueText(Obj(members), depth0, fmt)
    decreases members, 1
  {
    var names, entries := new string[|members|], new string[|members|];
    var depth := depth0 + 1;
    var len := PrintMembers(names, entries, members, depth, fmt);
    text := JoinMembers(names, entries, len, members, depth, fmt);
  }

  /** The first half of print_object. */
  method PrintMembers(names: array<string>, entries: array<string>, members: seq<Member>, depth: nat, fmt: bool)
      returns (len: nat)
    requires names.Length == |members| && entries.Length == |members| && names != entries
    requires forall i :: 0 <= i < |members| ==> NulFree(members[i].name) && Valid(members[i].value)
    modifies names, entries
    ensures len == 7 + (if fmt then depth else 0) + MembersRoom(members, depth, fmt)
    ensures forall j :: 0 <= j < |members| ==> names[j] == StringText(members[j].name)
    ensures forall j :: 0 <= j < |members| ==> entries[j] == ValueText(members[j].value, depth, fmt)
    decreases members, 0
  {
    hide StringText, ValueText, MembersText;
    len := 7 + (if fmt then depth else 0);
    ghost var len0 := len;
    var i: nat := 0;
    assert members[0..] == members;
    while i < |members|
      invariant i <= |members|
      invariant len + MembersRoom(members[i..], depth, fmt) == len0 + MembersRoom(members, depth, fmt)
      invariant forall j :: 0 <= j < i ==> names[j] == StringText(members[j].name)
      invariant forall j :: 0 <= j < i ==> entries[j] == ValueText(members[j].value, depth, fmt)
    {
      assert members[i..][1..] == members[i + 1..];
      var str := PrintStringPtr(members[i].name);
      var ret := PrintValue(members[i].value, depth, fmt);
      names[i], entries[i] := str, ret;
      len := len + |ret| + |str| + 2 + (if fmt then 2 + depth else 0);
      i := i + 1;
    }
  }

  lemma MembersStep(done: string, todo: seq<Member>, depth: nat, fmt: bool)
    requires todo != []
    ensures done + MembersText(todo, depth, fmt) ==
            (done + MemberText(todo[0], depth, fmt) + When(|todo| > 1, ",") + When(fmt, "\n"))
            + MembersText(todo[1..], depth, fmt)
    ensures MembersRoom(todo, depth, fmt) ==
            |StringText(todo[0].name)| + |ValueText(todo[0].value, depth, fmt)| + 2
            + (if fmt then 2 + depth else 0) + MembersRoom(todo[1..], depth, fmt)
  {
    Five(done, MemberText(todo[0], depth, fmt), When(|todo| > 1, ","), When(fmt, "\n"),
         MembersText(todo[1..], depth, fmt));
    hide ValueText, StringText, MemberText;
  }

  /** The second half of print_object. */
  method JoinMembers(names: array<string>, entries: array<string>, len: nat, ghost ms: seq<Member>, depth: nat,
                     fmt: bool) returns (text: string)
    requires names.Length == |ms| && entries.Length == |ms| && depth > 0
    requires len == 7 + (if fmt then depth else 0) + MembersRoom(ms, depth, fmt)
    requires forall j :: 0 <= j < |ms| ==> names[j] == StringText(ms[j].name)
    requires forall j :: 0 <= j < |ms| ==> entries[j] == ValueText(ms[j].value, depth, fmt)
    ensures text == "{" + (When(fmt, "\n") + (MembersText(ms, depth, fmt) + (When(fmt, Tabs(depth - 1)) + "}")))
  {
    hide ValueText, StringText, MembersText, MembersRoom, Tabs;
    var newline, close := When(fmt, "\n"), When(fmt, Tabs(depth - 1));
    var out := new char[len];
    out[0] := '{';
    var ptr: nat, i: nat := 1, 0;
    assert out[..1] == "{";
    ptr := PutText(out, ptr, newline);
    assert ms[0..] == ms;
    Assoc("{", newline, MembersText(ms, depth, fmt));
    while i < entries.Length
      invariant i <= |ms| && ptr + MembersRoom(ms[i..], depth, fmt) + 5 + (if fmt then depth else 0) <= len
      invariant out[..ptr] + MembersText(ms[i..], depth, fmt) == "{" + (newline + MembersText(ms, depth, fmt))
    {
      assert ms[i..][1..] == ms[i + 1..];
      ptr := PutLine(out, ptr, names[i], entries[i], depth, fmt, i != entries.Length - 1, ms[i..]);
      i := i + 1;
    }
    assert ms[i..] == [];
    NoMembers(depth, fmt);
    assert out[..ptr] + [] == out[..ptr];
    text := CloseObject(out, ptr, newline, MembersText(ms, depth, fmt), close);
  }

  lemma NoMembers(depth: nat, fmt: bool)
    ensures MembersText([], depth, fmt) == [] && MembersRoom([], depth, fmt) == 0
  {
  }

  /** The end of print_object. */
  method CloseObject(out: array<char>, at: nat, ghost newline: string, ghost inside: string, close: string)
      returns (text: string)
    requires at + |close| + 1 < out.Length && out[..at] == "{" + (newline + inside)
    modifies out
    ensures text == "{" + (newline + (inside + (close + "}")))
  {
    var ptr := PutText(out, at, close);
    ptr := PutText(out, ptr, "}");
    text := out[..ptr];
    Assoc("{", newline + inside, close + "}");
    Assoc(newline, inside, close + "}");
    Assoc("{" + (newline + inside), close, "}");
  }

  /** Indentation, name, colon and value. */
  method PutMember(out: array<char>, at: nat, name: string, entry: string, depth: nat, fmt: bool, ghost m: Member)
      returns (next: nat)
    requires at + |name| + |entry| + 1 + (if fmt then 1 + depth else 0) < out.Length
    requires name == StringText(m.name) && entry == ValueText(m.value, depth, fmt)
    modifies out
    ensures next == at + |name| + |entry| + 1 + (if fmt then 1 + depth else 0)
    ensures out[..next] == old(out[..at]) + MemberText(m, depth, fmt)
  {
    hide StringText, ValueText, Tabs;
    ghost var done := out[..at];
    var indent, gap := When(fmt, Tabs(depth)), When(fmt, "\t");
    next := PutText(out, at, indent);
    next := PutText(out, next, name);
    next := PutText(out, next, ":");
    next := PutText(out, next, gap);
    Five(done, indent, name, ":", gap);
    next := PutText(out, next, entry);
    MemberPieces(done, indent, name, gap, entry);
  }

  /** One turn of the loop that composes the object. */
  method PutLine(out: array<char>, at: nat, name: string, entry: string, depth: nat, fmt: bool, more: bool,
                 ghost todo: seq<Member>) returns (next: nat)
    requires todo != [] && more == (|todo| > 1)
    requires name == StringText(todo[0].name) && entry == ValueText(todo[0].value, depth, fmt)
    requires at + MembersRoom(todo, depth, fmt) + 2 < out.Length
    modifies out
    ensures next + MembersRoom(todo[1..], depth, fmt) <= at + MembersRoom(todo, depth, fmt) && next <= out.Length
    ensures out[..next] + MembersText(todo[1..], depth, fmt) == old(out[..at]) + MembersText(todo, depth, fmt)
  {
    hide StringText, ValueText, MemberText, MembersText, MembersRoom;
    ghost var done := out[..at];
    MembersStep(done, todo, depth, fmt);
    next := PutMember(out, at, name, entry, depth, fmt, todo[0]);
    next := PutSeparator(out, next, more, fmt, done + MemberText(todo[0], depth, fmt));
  }

  method PutSeparator(out: array<char>, at: nat, more: bool, fmt: bool, ghost done: string) returns (next: nat)
    requires at + 2 < out.Length && out[..at] == done
    modifies out
    ensures next == at + (if more then 1 else 0) + (if fmt then 1 else 0)
    ensures out[..next] == done + When(more, ",") + When(fmt, "\n")
  {
    next := PutText(out, at, When(more, ","));
    next := PutText(out, next, When(fmt, "\n"));
  }

  lemma MemberPieces(done: string, indent: string, name: string, gap: string, entry: string)
    ensures (done + indent + name + ":" + gap) + entry == done + (indent + (name + (":" + (gap + entry))))
  {
    Assoc(done + indent + name + ":", gap, entry);
    Five(done, indent, name, ":", gap + entry);
  }

  // ---------- whole values: parsing ----------

  predicate Blank(c: char) { c as int <= 32 }

  predicate AllBlank(s: string) { forall i :: 0 <= i < |s| ==> Blank(s[i]) }

  function SkipBlanks(s: string): (r: string)
    ensures |r| <= |s|
  {
    if s != [] && Blank(s[0]) then SkipBlanks(s[1..]) else s
  }

  /** skip */
  method Skip(s0: string) returns (s: string)
    ensures s == SkipBlanks(s0)
  {
    s := s0;
    while s != [] && Blank(s[0])
      invariant SkipBlanks(s) == SkipBlanks(s0)
      decreases |s|
    {
      s := s[1..];
    }
  }

  function ValueAt(s: string): (p: Parsed<Json>)
    ensures p.Ok? ==> |p.rest| < |s|
    decreases |s|, 0
  {
    if "null" <= s then Ok(Null, s[4..])
    else if "false" <= s then Ok(False, s[5..])
    else if "true" <= s then Ok(True, s[4..])
    else if Starts(s, '\"') then
      match StringAt(s) case Ok(text, rest) => Ok(Str(text), rest) case Fail => Fail case Beyond => Beyond
    else if s != [] && (s[0] == '-' || IsDigit(s[0])) then NumberAt(s)
    else if Starts(s, '[') then ArrayAt(SkipBlanks(s[1..]))
    else if Starts(s, '{') then ObjectAt(SkipBlanks(s[1..]))
    else Fail
  }

  function ArrayAt(s: string): (p: Parsed<Json>)
    ensures p.Ok? ==> |p.rest| < |s|
    decreases |s|, 3
  {
    if Starts(s, ']') then Ok(Arr([]), s[1..])
    else match ItemsAt(s) case Ok(items, rest) => Ok(Arr(items), rest) case Fail => Fail case Beyond => Beyond
  }

  function ObjectAt(s: string): (p: Parsed<Json>)
    ensures p.Ok? ==> |p.rest| < |s|
    decreases |s|, 3
  {
    if Starts(s, '}') then Ok(Obj([]), s[1..])
    else match MembersAt(s) case Ok(ms, rest) => Ok(Obj(ms), rest) case Fail => Fail case Beyond => Beyond
  }

  /** Elements up to the closing bracket. */
  function ItemsAt(s: string): (p: Parsed<seq<Json>>)
    ensures p.Ok? ==> |p.rest| < |s|
    decreases |s|, 1
  {
    match ValueAt(SkipBlanks(s))
    case Ok(t, rest) => Prepend([t], MoreItemsAt(SkipBlanks(rest)))
    case Fail => Fail
    case Beyond => Beyond
  }

  function MoreItemsAt(s: string): (p: Parsed<seq<Json>>)
    ensures p.Ok? ==> |p.rest| < |s|
    decreases |s|, 2
  {
    if Starts(s, ',') then ItemsAt(s[1..])
    else if Starts(s, ']') then Ok([], s[1..])
    else Fail
  }

  /** One `"name": value`. */
  function MemberAt(s: string): (p: Parsed<Member>)
    ensures p.Ok? ==> |p.rest| < |s|
    decreases |s|, 1
  {
    match StringAt(SkipBlanks(s))
    case Ok(name, rest) =>
      var v := SkipBlanks(rest);
      if !Starts(v, ':') then Fail
      else match ValueAt(SkipBlanks(v[1..])) {
        case Ok(t, rest2) => Ok(Member(name, t), rest2)
        case Fail => Fail
        case Beyond => Beyond
      }
    case Fail => Fail
    case Beyond => Beyond
  }

  /** Members up to the closing brace. */
  function MembersAt(s: string): (p: Parsed<seq<Member>>)
    ensures p.Ok? ==> |p.rest| < |s|
    decreases |s|, 2
  {
    match MemberAt(s)
    case Ok(m, rest) => Prepend([m], MoreMembersAt(SkipBlanks(rest)))
    case Fail => Fail
    case Beyond => Beyond
  }

  function MoreMembersAt(s: string): (p: Parsed<seq<Member>>)
    ensures p.Ok? ==> |p.rest| < |s|
    decreases |s|, 3
  {
    if Starts(s, ',') then MembersAt(s[1..])
    else if Starts(s, '}') then Ok([], s[1..])
    else Fail
  }

  /** parse_value */
  method ParseValue(value: string) returns (p: Parsed<Json>)
    ensures p == ValueAt(value)
    decreases |value|, 1
  {
    if "null" <= value {
      return Ok(Null, value[4..]);
    }
    if "false" <= value {
      return Ok(False, value[5..]);
    }
    if "true" <= value {
      return Ok(True, value[4..]);
    }
    if Starts(value, '\"') {
      var q := ParseString(value);
      return match q case Ok(text, rest) => Ok(Str(text), rest) case Fail => Fail case Beyond => Beyond;
    }
    if value != [] && (value[0] == '-' || IsDigit(value[0])) {
      p := ParseNumber(value);
      return;
    }
    if Starts(value, '[') {
      p := ParseArray(value);
      return;
    }
    if Starts(value, '{') {
      p := ParseObject(value);
      return;
    }
    return Fail;
  }

  /** parse_array */
  method ParseArray(value0: string) returns (p: Parsed<Json>)
    ensures p == if Starts(value0, '[') then ArrayAt(SkipBlanks(value0[1..])) else Fail
    decreases |value0|, 0
  {
    if !Starts(value0, '[') {
      return Fail;
    }
    var value := Skip(value0[1..]);
    if Starts(value, ']') {
      return Ok(Arr([]), value[1..]);
    }
    var q := ParseItems(value);
    return match q case Ok(items, rest) => Ok(Arr(items), rest) case Fail => Fail case Beyond => Beyond;
  }

  /** The loop of parse_array, with its first turn unrolled as there. */
  method ParseItems(value0: string) returns (p: Parsed<seq<Json>>)
    ensures p == ItemsAt(value0)
    decreases |value0|, 2
  {
    var value := Skip(value0);
    var q := ParseValue(value);
    if !q.Ok? {
      return if q.Fail? then Fail else Beyond;
    }
    var children := [q.value];
    value := Skip(q.rest);
    while Starts(value, ',')
      invariant |value| < |value0| && ItemsAt(value0) == Prepend(children, MoreItemsAt(value))
      decreases |value|
    {
      var next := Skip(value[1..]);
      q := ParseValue(next);
      if !q.Ok? {
        return if q.Fail? then Fail else Beyond;
      }
      value := Skip(q.rest);
      PrependTwice(children, [q.value], MoreItemsAt(value));
      children := children + [q.value];
    }
    if Starts(value, ']') {
      assert children + [] == children;
      return Ok(children, value[1..]);
    }
    return Fail;
  }

  /** parse_object */
  method ParseObject(value0: string) returns (p: Parsed<Json>)
    ensures p == if Starts(value0, '{') then ObjectAt(SkipBlanks(value0[1..])) else Fail
    decreases |value0|, 0
  {
    if !Starts(value0, '{') {
      return Fail;
    }
    var value := Skip(value0[1..]);
    if Starts(value, '}') {
      return Ok(Obj([]), value[1..]);
    }
    var q := ParseMembers(value);
    return match q case Ok(ms, rest) => Ok(Obj(ms), rest) case Fail => Fail case Beyond => Beyond;
  }

  /** The name, colon and value that parse_object reads for each child. */
  method ParseMember(value0: string) returns (p: Parsed<Member>)
    ensures p == MemberAt(value0)
    decreases |value0|, 2
  {
    var value := Skip(value0);
    var name := ParseString(value);
    if !name.Ok? {
      return if name.Fail? then Fail else Beyond;
    }
    value := Skip(name.rest);
    if !Starts(value, ':') {
      return Fail;
    }
    value := Skip(value[1..]);
    var q := ParseValue(value);
    return match q case Ok(t, rest) => Ok(Member(name.value, t), rest) case Fail => Fail case Beyond => Beyond;
  }

  /** The loop of parse_object, with its first turn unrolled as there. */
  method ParseMembers(value0: string) returns (p: Parsed<seq<Member>>)
    ensures p == MembersAt(value0)
    decreases |value0|, 3
  {
    var q := ParseMember(value0);
    if !q.Ok? {
      return if q.Fail? then Fail else Beyond;
    }
    var children := [q.value];
    var value := Skip(q.rest);
    while Starts(value, ',')
      invariant |value| < |value0| && MembersAt(value0) == Prepend(children, MoreMembersAt(value))
      decreases |value|
    {
      q := ParseMember(value[1..]);
      if !q.Ok? {
        return if q.Fail? then Fail else Beyond;
      }
      value := Skip(q.rest);
      PrependTwice(children, [q.value], MoreMembersAt(value));
      children := children + [q.value];
    }
    if Starts(value, '}') {
      assert children + [] == children;
      return Ok(children, value[1..]);
    }
    return Fail;
  }

  // ---------- the round trip ----------

  /** The tree that comes back: the same 64-bit integers, the sign flag kept for the
      negative ones. */
  function Canonical(t: Json): Json {
    match t
    case Int(bits, signed) => Int(bits, signed && bits >= TWO_63)
    case Arr(items) => Arr(CanonicalItems(items))
    case Obj(members) => Obj(CanonicalMembers(members))
    case _ => t
  }

  function CanonicalItems(items: seq<Json>): seq<Json> {
    if items == [] then [] else [Canonical(items[0])] + CanonicalItems(items[1..])
  }

  function CanonicalMembers(ms: seq<Member>): seq<Member> {
    if ms == [] then []
    else [Member(ms[0].name, Canonical(ms[0].value))] + CanonicalMembers(ms[1..])
  }

  lemma {:induction false} SkipOver(w: string, s: string)
    requires AllBlank(w)
    ensures SkipBlanks(w + s) == SkipBlanks(s)
  {
    if w == [] {
      assert w + s == s;
    } else {
      SkipOver(w[1..], s);
      assert (w + s)[1..] == w[1..] + s;
    }
  }

  /** The first character of a printed value decides how it is read. */
  predicate HeadOf(t: Json, c: char) {
    match t
    case Null => c == 'n'
    case False => c == 'f'
    case True => c == 't'
    case Int(_, _) => c == '-' || IsDigit(c)
    case Str(_) => c == '\"'
    case Arr(_) => c == '['
    case Obj(_) => c == '{'
  }

  lemma TextHead(t: Json, depth: nat, fmt: bool)
    ensures ValueText(t, depth, fmt) != [] && HeadOf(t, ValueText(t, depth, fmt)[0])
  {
  }

  lemma {:induction false} ValueRoundTrip(t: Json, depth: nat, fmt: bool, rest: string)
    requires Valid(t) && (t.Int? ==> EndsNumber(rest))
    ensures ValueAt(ValueText(t, depth, fmt) + rest) == Ok(Canonical(t), rest)
    decreases t, 0
  {
    match t
    case Arr(items) => {
      ArrayRoundTrip(items, depth, fmt, rest);
      ArrayText(items, depth, fmt, rest);
    }
    case Obj(members) => {
      ObjectRoundTrip(members, depth, fmt, rest);
      ObjectText(members, depth, fmt, rest);
    }
    case _ => ScalarRoundTrip(t, depth, fmt, rest);
  }

  lemma ScalarRoundTrip(t: Json, depth: nat, fmt: bool, rest: string)
    requires Valid(t) && !t.Arr? && !t.Obj? && (t.Int? ==> EndsNumber(rest))
    ensures ValueAt(ValueText(t, depth, fmt) + rest) == Ok(Canonical(t), rest)
  {
    hide NumberAt, StringAt, StringText, IntText, ArrayAt, ObjectAt, ItemsText, MembersText;
    var s := ValueText(t, depth, fmt) + rest;
    TextHead(t, depth, fmt);
    NotWord(s);
    match t
    case Null => assert s[..4] == "null" && s[4..] == rest;
    case False => assert s[..5] == "false" && s[5..] == rest;
    case True => assert s[..4] == "true" && s[4..] == rest;
    case Int(bits, signed) => IntRoundTrip(bits, signed, rest);
    case Str(text) => StringRoundTrip(text, rest);
  }

  lemma NotWord(s: string)
    requires s != []
    ensures "null" <= s ==> s[0] == 'n'
    ensures "false" <= s ==> s[0] == 'f'
    ensures "true" <= s ==> s[0] == 't'
  {
    assert "null"[0] == 'n' && "false"[0] == 'f' && "true"[0] == 't';
  }

  /** What ValueAt does with a printed array. */
  lemma ArrayText(items: seq<Json>, depth: nat, fmt: bool, rest: string)
    ensures ValueAt(ValueText(Arr(items), depth, fmt) + rest) ==
            ArrayAt(SkipBlanks(ItemsText(items, depth + 1, fmt) + ("]" + rest)))
  {
    hide NumberAt, StringAt, ItemsText, ArrayAt, ObjectAt, SkipBlanks;
    var s := ValueText(Arr(items), depth, fmt) + rest;
    Brackets("[", ItemsText(items, depth + 1, fmt), "]", rest);
    NotWord(s);
    assert s[0] == '[' && s[1..] == ItemsText(items, depth + 1, fmt) + ("]" + rest);
  }

  /** What ValueAt does with a printed object. */
  lemma ObjectText(ms: seq<Member>, depth: nat, fmt: bool, rest: string)
    ensures ValueAt(ValueText(Obj(ms), depth, fmt) + rest) ==
            ObjectAt(SkipBlanks(When(fmt, "\n") + (MembersText(ms, depth + 1, fmt) + (When(fmt, Tabs(depth)) + ("}" + rest)))))
  {
    hide NumberAt, StringAt, MembersText, ArrayAt, ObjectAt, SkipBlanks, When, Tabs;
    NotWord(ValueText(Obj(ms), depth, fmt) + rest);
    Object(When(fmt, "\n"), MembersText(ms, depth + 1, fmt), When(fmt, Tabs(depth)), rest);
  }

  lemma Brackets(open: string, inside: string, close: string, rest: string)
    ensures (open + (inside + close)) + rest == open + (inside + (close + rest))
  {
    Assoc(open, inside + close, rest);
    Assoc(inside, close, rest);
  }

  lemma Object(newline: string, text: string, close: string, rest: string)
    ensures var s := "{" + (newline + (text + (close + "}"))) + rest;
            s[0] == '{' && s[1..] == newline + (text + (close + ("}" + rest)))
  {
    Assoc("{", newline + (text + (close + "}")), rest);
    Assoc(newline, text + (close + "}"), rest);
    Brackets(text, close, "}", rest);
  }

  lemma {:induction false} ArrayRoundTrip(items: seq<Json>, depth: nat, fmt: bool, rest: string)
    requires forall i :: 0 <= i < |items| ==> Valid(items[i])
    ensures ArrayAt(SkipBlanks(ItemsText(items, depth + 1, fmt) + ("]" + rest))) == Ok(Arr(CanonicalItems(items)), rest)
    decreases items, 1
  {
    var s := ItemsText(items, depth + 1, fmt) + ("]" + rest);
    if items == [] {
      EmptyArray(rest);
      assert s == "]" + rest;
      hide ItemsText, ItemsAt, ArrayAt, SkipBlanks;
    } else {
      ItemsRoundTrip(items, depth + 1, fmt, rest);
      ItemsHead(items, depth + 1, fmt, "]" + rest);
      hide ItemsText, ItemsAt, CanonicalItems;
    }
  }

  lemma EmptyArray(rest: string)
    ensures ArrayAt(SkipBlanks("]" + rest)) == Ok(Arr([]), rest)
  {
    var s := "]" + rest;
    assert s[0] == ']' && s[1..] == rest;
    hide ItemsAt;
  }

  lemma ItemsHead(items: seq<Json>, depth: nat, fmt: bool, tail: string)
    requires items != []
    ensures var s := ItemsText(items, depth, fmt) + tail; s != [] && !Blank(s[0]) && s[0] != ']'
  {
    TextHead(items[0], depth, fmt);
    var c := ValueText(items[0], depth, fmt)[0];
    assert !Blank(c) && c != ']';
    hide ValueText, Comma, HeadOf;
    assert ItemsText(items, depth, fmt)[0] == c;
  }

  lemma {:induction false} ItemsRoundTrip(items: seq<Json>, depth: nat, fmt: bool, rest: string)
    requires items != [] && forall i :: 0 <= i < |items| ==> Valid(items[i])
    ensures ItemsAt(ItemsText(items, depth, fmt) + ("]" + rest)) == Ok(CanonicalItems(items), rest)
    decreases items, 0
  {
    var first, others := ValueText(items[0], depth, fmt), ItemsText(items[1..], depth, fmt);
    var tail := Comma(|items| > 1, fmt) + (others + ("]" + rest));
    if |items| > 1 {
      ItemsRoundTrip(items[1..], depth, fmt, rest);
      CommaThen(others + ("]" + rest), fmt);
    } else {
      assert tail == "]" + rest && tail[1..] == rest;
    }
    TextHead(items[0], depth, fmt);
    ValueRoundTrip(items[0], depth, fmt, tail);
    hide ValueText, ValueAt, Canonical, HeadOf;
    Assoc(first, Comma(|items| > 1, fmt) + others, "]" + rest);
    Assoc(Comma(|items| > 1, fmt), others, "]" + rest);
    ItemsAtCons(first, tail);
  }

  lemma CommaThen(s: string, fmt: bool)
    ensures MoreItemsAt(Comma(true, fmt) + s) == ItemsAt(s)
  {
    assert (Comma(true, fmt) + s)[1..] == When(fmt, " ") + s;
    SkipOver(When(fmt, " "), s);
  }

  lemma ItemsAtCons(first: string, tail: string)
    requires first != [] && tail != [] && !Blank(first[0]) && !Blank(tail[0])
    requires var p := ValueAt(first + tail); p.Ok? && p.rest == tail
    ensures ItemsAt(first + tail) == Prepend([ValueAt(first + tail).value], MoreItemsAt(tail))
  {
    hide ValueAt, MoreItemsAt;
  }

  lemma {:induction false} ObjectRoundTrip(ms: seq<Member>, depth: nat, fmt: bool, rest: string)
    requires forall i :: 0 <= i < |ms| ==> NulFree(ms[i].name) && Valid(ms[i].value)
    ensures var inside := MembersText(ms, depth + 1, fmt) + (When(fmt, Tabs(depth)) + ("}" + rest));
            ObjectAt(SkipBlanks(When(fmt, "\n") + inside)) == Ok(Obj(CanonicalMembers(ms)), rest)
    decreases ms, 1
  {
    var close := When(fmt, Tabs(depth));
    var inside := MembersText(ms, depth + 1, fmt) + (close + ("}" + rest));
    SkipOver(When(fmt, "\n"), inside);
    if ms == [] {
      assert inside == close + ("}" + rest);
      SkipOver(close, "}" + rest);
      assert ("}" + rest)[1..] == rest;
    } else {
      MembersRoundTrip(ms, depth + 1, fmt, close, rest);
      NameHead(ms, depth + 1, fmt, close + ("}" + rest));
      hide MembersText, MembersAt, CanonicalMembers;
      MembersAtBlank(inside);
    }
  }

  /** Leading blanks do not matter to MembersAt. */
  lemma MembersAtBlank(s: string)
    ensures MembersAt(SkipBlanks(s)) == MembersAt(s)
  {
    SkipTwice(s);
  }

  lemma {:induction false} SkipTwice(s: string)
    ensures SkipBlanks(SkipBlanks(s)) == SkipBlanks(s)
  {
    if s != [] && Blank(s[0]) { SkipTwice(s[1..]); }
  }

  lemma NameHead(ms: seq<Member>, depth: nat, fmt: bool, tail: string)
    requires ms != []
    ensures Starts(SkipBlanks(MembersText(ms, depth, fmt) + tail), '\"')
  {
    var w := When(fmt, Tabs(depth));
    var name := StringText(ms[0].name);
    assert name[0] == '\"';
    hide StringText, MemberTail;
    var others := When(|ms| > 1, ",") + (When(fmt, "\n") + MembersText(ms[1..], depth, fmt));
    Assoc(w + (name + MemberTail(ms[0], depth, fmt)), others, tail);
    Assoc(w, name + MemberTail(ms[0], depth, fmt), others + tail);
    var s := name + MemberTail(ms[0], depth, fmt) + (others + tail);
    assert s[0] == '\"';
    SkipOver(w, s);
  }

  lemma {:induction false} MembersRoundTrip(ms: seq<Member>, depth: nat, fmt: bool, close: string, rest: string)
    requires ms != [] && forall i :: 0 <= i < |ms| ==> NulFree(ms[i].name) && Valid(ms[i].value)
    requires AllBlank(close)
    ensures MembersAt(MembersText(ms, depth, fmt) + (close + ("}" + rest))) == Ok(CanonicalMembers(ms), rest)
    decreases ms, 0
  {
    var others := MembersText(ms[1..], depth, fmt) + (close + ("}" + rest));
    var tail := When(|ms| > 1, ",") + (When(fmt, "\n") + others);
    if |ms| > 1 {
      MembersRoundTrip(ms[1..], depth, fmt, close, rest);
      CommaThenMembers(others, fmt);
    } else {
      LastMember(close, rest, fmt);
      assert others == close + ("}" + rest) && tail == When(fmt, "\n") + others;
    }
    MemberRoundTrip(ms[0], depth, fmt, tail);
    hide MemberText, MemberAt, Canonical, MoreMembersAt;
    Assoc(MemberText(ms[0], depth, fmt), When(|ms| > 1, ",") + (When(fmt, "\n") + MembersText(ms[1..], depth, fmt)),
          close + ("}" + rest));
    Assoc(When(|ms| > 1, ","), When(fmt, "\n") + MembersText(ms[1..], depth, fmt), close + ("}" + rest));
    Assoc(When(fmt, "\n"), MembersText(ms[1..], depth, fmt), close + ("}" + rest));
  }

  lemma CommaThenMembers(s: string, fmt: bool)
    ensures MoreMembersAt(SkipBlanks("," + (When(fmt, "\n") + s))) == MembersAt(s)
  {
    var t := When(fmt, "\n") + s;
    assert ("," + t)[1..] == t;
    SkipOver(When(fmt, "\n"), s);
    MembersAtBlank(t);
    MembersAtBlank(s);
  }

  lemma LastMember(close: string, rest: string, fmt: bool)
    requires AllBlank(close)
    ensures MoreMembersAt(SkipBlanks(When(fmt, "\n") + (close + ("}" + rest)))) == Ok([], rest)
    ensures EndsNumber(When(fmt, "\n") + (close + ("}" + rest)))
  {
    SkipOver(When(fmt, "\n"), close + ("}" + rest));
    SkipOver(close, "}" + rest);
    assert ("}" + rest)[1..] == rest;
  }

  lemma MemberThen(indent: string, name: string, gap: string, value: string, tail: string)
    ensures indent + (name + (":" + (gap + value))) + tail == indent + (name + (":" + (gap + (value + tail))))
  {
    Assoc(indent, name + (":" + (gap + value)), tail);
    Assoc(name, ":" + (gap + value), tail);
    Assoc(":", gap + value, tail);
    Assoc(gap, value, tail);
  }

  lemma {:induction false} MemberRoundTrip(m: Member, depth: nat, fmt: bool, tail: string)
    requires NulFree(m.name) && Valid(m.value) && EndsNumber(tail)
    ensures MemberAt(MemberText(m, depth, fmt) + tail) == Ok(Member(m.name, Canonical(m.value)), tail)
    decreases m, 0
  {
    var value := ValueText(m.value, depth, fmt) + tail;
    ValueRoundTrip(m.value, depth, fmt, tail);
    TextHead(m.value, depth, fmt);
    assert !Blank(value[0]);
    hide ValueText, ValueAt, HeadOf, Canonical;
    var indent, gap := When(fmt, Tabs(depth)), When(fmt, "\t");
    var afterName := ":" + (gap + value);
    StringRoundTrip(m.name, afterName);
    var name := StringText(m.name) + afterName;
    assert name[0] == '\"';
    hide StringText, StringAt;
    MemberThen(indent, StringText(m.name), gap, ValueText(m.value, depth, fmt), tail);
    SkipOver(indent, name);
    assert afterName[1..] == gap + value;
    SkipOver(gap, value);
  }

  /** cJSON_Parse of cJSON_Print, or of cJSON_PrintUnformatted, with blanks in front. */
  method Parse(value: string) returns (p: Parsed<Json>)
    ensures p == ValueAt(SkipBlanks(value))
  {
    var v := Skip(value);
    p := ParseValue(v);
  }

  lemma ParsePrint(t: Json, fmt: bool, blanks: string)
    requires Valid(t) && AllBlank(blanks)
    ensures ValueAt(SkipBlanks(blanks + ValueText(t, 0, fmt))) == Ok(Canonical(t), [])
  {
    SkipOver(blanks, ValueText(t, 0, fmt));
    TextHead(t, 0, fmt);
    ValueRoundTrip(t, 0, fmt, []);
    assert ValueText(t, 0, fmt) + [] == ValueText(t, 0, fmt);
  }

  /** Reading a printed tree and printing it again changes nothing. */
  lemma {:induction false} PrintCanonical(t: Json, depth: nat, fmt: bool)
    requires Valid(t)
    ensures ValueText(Canonical(t), depth, fmt) == ValueText(t, depth, fmt)
    decreases t, 0
  {
    match t
    case Arr(items) => ItemsCanonical(items, depth + 1, fmt);
    case Obj(members) => MembersCanonical(members, depth + 1, fmt);
    case _ =>
  }

  lemma {:induction false} ItemsCanonical(items: seq<Json>, depth: nat, fmt: bool)
    requires forall i :: 0 <= i < |items| ==> Valid(items[i])
    ensures |CanonicalItems(items)| == |items|
    ensures ItemsText(CanonicalItems(items), depth, fmt) == ItemsText(items, depth, fmt)
    decreases items, 0
  {
    if items != [] {
      PrintCanonical(items[0], depth, fmt);
      ItemsCanonical(items[1..], depth, fmt);
      assert CanonicalItems(items)[1..] == CanonicalItems(items[1..]);
    }
  }

  lemma {:induction false} MembersCanonical(ms: seq<Member>, depth: nat, fmt: bool)
    requires forall i :: 0 <= i < |ms| ==> NulFree(ms[i].name) && Valid(ms[i].value)
    ensures |CanonicalMembers(ms)| == |ms|
    ensures MembersText(CanonicalMembers(ms), depth, fmt) == MembersText(ms, depth, fmt)
    decreases ms, 0
  {
    if ms != [] {
      PrintCanonical(ms[0].value, depth, fmt);
      MembersCanonical(ms[1..], depth, fmt);
      assert CanonicalMembers(ms)[1..] == CanonicalMembers(ms[1..]);
      assert MemberTail(CanonicalMembers(ms)[0], depth, fmt) == MemberTail(ms[0], depth, fmt);
    }
  }
}

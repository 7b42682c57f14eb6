/** json_config.c: numbers and strings as text. C strings are sequences of non-zero
    characters, and a pointer into one is the suffix it points at. */
module JsonText {

  const TWO_64: int := 0x1_0000_0000_0000_0000
  const TWO_63: int := 0x8000_0000_0000_0000

  /** The outcome of a parse function: a value and the text after it, a null pointer, or
      something outside the model (a double, a number of 2^64 or more, a malformed `\u` escape, a
      backslash as the last character). */
  datatype Parsed<T> = Ok(value: T, rest: string) | Fail | Beyond

  function Starts(s: string, c: char): bool { s != [] && s[0] == c }

  predicate IsDigit(c: char) { '0' <= c <= '9' }

  function DigitOf(c: char): nat
    requires IsDigit(c)
  {
    c as int - '0' as int
  }

  predicate AllDigits(s: string) { forall i :: 0 <= i < |s| ==> IsDigit(s[i]) }

  // ---------- decimal numerals ----------

  /** What `%u`, `%d`, `%llu` and `%lld` write for a number that is not negative. */
  function Decimal(n: nat): (s: string)
    ensures |s| > 0 && AllDigits(s)
    ensures n > 0 ==> s[0] != '0'
  {
    var last := [(n % 10 + '0' as int) as char];
    if n < 10 then last else Decimal(n / 10) + last
  }

  function DecVal(s: string): nat
    requires AllDigits(s)
  {
    if s == [] then 0 else 10 * DecVal(s[..|s| - 1]) + DigitOf(s[|s| - 1])
  }

  lemma {:induction false} DecimalValue(n: nat)
    ensures DecVal(Decimal(n)) == n
  {
    if n >= 10 {
      DecimalValue(n / 10);
      assert Decimal(n)[..|Decimal(n)| - 1] == Decimal(n / 10);
    }
  }

  /** How many digits a text starts with. */
  function Run(s: string): (k: nat)
    ensures k <= |s| && AllDigits(s[..k]) && (k < |s| ==> !IsDigit(s[k]))
  {
    if s == [] || !IsDigit(s[0]) then 0
    else
      var k := 1 + Run(s[1..]);
      assert forall i :: 0 < i < k ==> s[..k][i] == s[1..][..k - 1][i - 1];
      k
  }

  lemma {:induction false} RunOf(ds: string, rest: string)
    requires AllDigits(ds) && (rest != [] ==> !IsDigit(rest[0]))
    ensures Run(ds + rest) == |ds|
  {
    if ds == [] {
      assert ds + rest == rest;
    } else {
      assert (ds + rest)[1..] == ds[1..] + rest;
      RunOf(ds[1..], rest);
    }
  }

  /** The digit loops of parse_number. */
  method DigitLoop(num0: string) returns (n: nat, num: string)
    ensures n == DecVal(num0[..Run(num0)]) && num == num0[Run(num0)..]
  {
    n, num := 0, num0;
    ghost var k := 0;
    while num != [] && IsDigit(num[0])
      invariant k <= |num0| && num == num0[k..]
      invariant AllDigits(num0[..k]) && n == DecVal(num0[..k])
    {
      assert num0[..k + 1][..k] == num0[..k];
      n := n * 10 + DigitOf(num[0]);
      num := num[1..];
      k := k + 1;
    }
    assert num0[..k] + num == num0;
    RunOf(num0[..k], num);
  }

  // ---------- strings: printing ----------

  const BACKSPACE: char := 8 as char
  const FORM_FEED: char := 12 as char

  predicate NulFree(s: string) { forall i :: 0 <= i < |s| ==> s[i] != '\0' }

  predicate HasShortEscape(c: char) {
    c == '\"' || c == '\\' || c == BACKSPACE || c == FORM_FEED || c == '\n' || c == '\r' || c == '\t'
  }

  function HexDigit(n: nat): char
    requires n < 16
  {
    (if n < 10 then n + '0' as int else n - 10 + 'a' as int) as char
  }

  /** `%04x` for a number below 256 */
  function Hex4(n: nat): string
    requires n < 256
  {
    ['0', '0', HexDigit(n / 16), HexDigit(n % 16)]
  }

  /** How one character of a string is written between the quotes. */
  function Escape(c: char): (e: string)
    ensures |e| == if HasShortEscape(c) then 2 else if c as int < 32 then 6 else 1
  {
    if c as int > 31 && c != '\"' && c != '\\' then [c]
    else if c == '\\' then "\\\\"
    else if c == '\"' then "\\\""
    else if c == BACKSPACE then "\\b"
    else if c == FORM_FEED then "\\f"
    else if c == '\n' then "\\n"
    else if c == '\r' then "\\r"
    else if c == '\t' then "\\t"
    else "\\u" + Hex4(c as int)
  }

  function EscapeAll(s: string): string {
    if s == [] then [] else Escape(s[0]) + EscapeAll(s[1..])
  }

  function StringText(s: string): string { "\"" + EscapeAll(s) + "\"" }

  /** The first loop of print_string_ptr. */
  method EscapedLength(str: string) returns (len: nat)
    ensures len == |EscapeAll(str)|
  {
    var ptr := str;
    len := 0;
    while ptr != []
      invariant len + |EscapeAll(ptr)| == |EscapeAll(str)|
      decreases |ptr|
    {
      len := len + 1;
      if HasShortEscape(ptr[0]) {
        len := len + 1;
      } else if ptr[0] as int < 32 {
        len := len + 5;
      }
      ptr := ptr[1..];
    }
  }

  /** print_string_ptr: one pass to size the buffer, one to fill it. */
  method PrintStringPtr(str: string) returns (text: string)
    ensures text == StringText(str)
  {
    var len := EscapedLength(str);
    var out := new char[len + 3];
    out[0] := '\"';
    var at: nat := 1;
    var ptr := str;
    assert out[..1] + EscapeAll(ptr) == "\"" + EscapeAll(str);
    while ptr != []
      invariant at + |EscapeAll(ptr)| == len + 1
      invariant out[..at] + EscapeAll(ptr) == "\"" + EscapeAll(str)
      decreases |ptr|
    {
      NextEscape(out[..at], ptr);
      hide Escape, EscapeAll;
      at := PutEscaped(out, at, ptr[0]);
      ptr := ptr[1..];
    }
    out[at] := '\"';
    out[at + 1] := '\0';
    text := out[..at + 1];
  }

  lemma NextEscape(done: string, ptr: string)
    requires ptr != []
    ensures done + EscapeAll(ptr) == (done + Escape(ptr[0])) + EscapeAll(ptr[1..])
    ensures |EscapeAll(ptr)| == |Escape(ptr[0])| + |EscapeAll(ptr[1..])|
  {
    hide Escape;
  }

  /** The body of the second loop of print_string_ptr. */
  method PutEscaped(out: array<char>, at: nat, token: char) returns (next: nat)
    requires at + |Escape(token)| + 1 <= out.Length
    modifies out
    ensures next == at + |Escape(token)| && out[..next] == old(out[..at]) + Escape(token)
  {
    if token as int > 31 && token != '\"' && token != '\\' {
      out[at] := token;
      return at + 1;
    }
    out[at] := '\\';
    if token == '\\' {
      out[at + 1] := '\\';
    } else if token == '\"' {
      out[at + 1] := '\"';
    } else if token == BACKSPACE {
      out[at + 1] := 'b';
    } else if token == FORM_FEED {
      out[at + 1] := 'f';
    } else if token == '\n' {
      out[at + 1] := 'n';
    } else if token == '\r' {
      out[at + 1] := 'r';
    } else if token == '\t' {
      out[at + 1] := 't';
    } else {
      var h := Hex4(token as int);
      out[at + 1], out[at + 2], out[at + 3], out[at + 4], out[at + 5], out[at + 6] := 'u', h[0], h[1], h[2], h[3], '\0';
      return at + 6;
    }
    next := at + 2;
  }

  // ---------- strings: parsing ----------

  predicate IsHex(c: char) { IsDigit(c) || 'a' <= c <= 'f' || 'A' <= c <= 'F' }

  function HexOf(c: char): (n: nat)
    requires IsHex(c)
    ensures n < 16
  {
    if IsDigit(c) then DigitOf(c)
    else if 'a' <= c <= 'f' then c as int - 'a' as int + 10
    else c as int - 'A' as int + 10
  }

  /** `s` starts with the four hex digits of a `\u` escape. */
  predicate HasCode(s: string) {
    |s| >= 4 && IsHex(s[0]) && IsHex(s[1]) && IsHex(s[2]) && IsHex(s[3])
  }

  function Code(s: string): (uc: nat)
    requires HasCode(s)
    ensures uc < 0x10000
  {
    ((HexOf(s[0]) * 16 + HexOf(s[1])) * 16 + HexOf(s[2])) * 16 + HexOf(s[3])
  }

  predicate IsLowSurrogate(uc: nat) { 0xDC00 <= uc <= 0xDFFF }

  predicate IsHighSurrogate(uc: nat) { 0xD800 <= uc <= 0xDBFF }

  /** What the code makes of two surrogates: bit 16 is set, not added. */
  function Paired(high: nat, low: nat): (uc: nat)
    ensures 0x10000 <= uc < 0x100000
  {
    var bits := high % 0x400 * 0x400 + low % 0x400;
    if bits / 0x10000 % 2 == 1 then bits else bits + 0x10000
  }

  /** The surrogates of a character (section 2.1 of RFC 2781) are put together right just if it
      is in a plane of odd number; otherwise the one in the plane before comes out. */
  lemma PairMeaning(c: nat)
    requires 0x10000 <= c < 0x110000
    ensures var high, low := 0xD800 + (c - 0x10000) / 0x400, 0xDC00 + (c - 0x10000) % 0x400;
            && IsHighSurrogate(high) && IsLowSurrogate(low)
            && (Paired(high, low) == c <==> c / 0x10000 % 2 == 1)
            && (Paired(high, low) == c || Paired(high, low) == c - 0x10000)
  {
    var x := c - 0x10000;
    var high, low := 0xD800 + x / 0x400, 0xDC00 + x % 0x400;
    assert 0xD800 == 54 * 0x400 && 0xDC00 == 55 * 0x400;
    assert high % 0x400 == x / 0x400 && low % 0x400 == x % 0x400;
    assert x / 0x400 * 0x400 + x % 0x400 == x;
    assert c / 0x10000 == x / 0x10000 + 1;
  }

  /** The bytes stored for a character; each six low bits go to one trailing byte. */
  function Utf8(uc: nat): (bytes: string)
    requires uc < 0x110000
    ensures 1 <= |bytes| <= 4 && (uc < 0x10000 ==> |bytes| <= 3)
  {
    if uc < 0x80 then [uc as char]
    else if uc < 0x800 then [(0xC0 + uc / 64) as char, (0x80 + uc % 64) as char]
    else if uc < 0x10000 then
      [(0xE0 + uc / 4096) as char, (0x80 + uc / 64 % 64) as char, (0x80 + uc % 64) as char]
    else
      [(0xF0 + uc / 262144) as char, (0x80 + uc / 4096 % 64) as char, (0x80 + uc / 64 % 64) as char,
       (0x80 + uc % 64) as char]
  }

  predicate Trailing(c: char) { 0x80 <= c as int < 0xC0 }

  /** `b` is the UTF-8 form of the character `n` (section 3 of RFC 3629). */
  predicate IsUtf8(b: string, n: nat) {
    if n < 0x80 then
      |b| == 1 && b[0] as int == n
    else if n < 0x800 then
      && |b| == 2 && 0xC0 <= b[0] as int < 0xE0 && Trailing(b[1])
      && (b[0] as int - 0xC0) * 0x40 + (b[1] as int - 0x80) == n
    else if n < 0x10000 then
      && |b| == 3 && 0xE0 <= b[0] as int < 0xF0 && Trailing(b[1]) && Trailing(b[2])
      && (b[0] as int - 0xE0) * 0x1000 + (b[1] as int - 0x80) * 0x40 + (b[2] as int - 0x80) == n
    else
      && |b| == 4 && 0xF0 <= b[0] as int < 0xF8 && Trailing(b[1]) && Trailing(b[2]) && Trailing(b[3])
      && (b[0] as int - 0xF0) * 0x40000 + (b[1] as int - 0x80) * 0x1000 + (b[2] as int - 0x80) * 0x40
         + (b[3] as int - 0x80) == n
  }

  lemma Utf8RoundTrip(uc: nat)
    requires uc < 0x110000
    ensures IsUtf8(Utf8(uc), uc)
  {
    if uc >= 0x800 {
      ThreeParts(uc);
    }
  }

  lemma ThreeParts(uc: nat)
    ensures uc == uc / 4096 * 4096 + uc / 64 % 64 * 64 + uc % 64
    ensures uc == uc / 262144 * 262144 + uc / 4096 % 64 * 4096 + uc / 64 % 64 * 64 + uc % 64
  {
    assert uc / 64 / 64 == uc / 4096;
    assert uc / 4096 / 64 == uc / 262144;
  }

  /** `s` is a `\u` escape of a high surrogate that another `\u` follows. */
  predicate TwoUnits(s: string)
    requires s != [] && s[0] == 'u' && HasCode(s[1..])
  {
    IsHighSurrogate(Code(s[1..])) && "\\u" <= s[5..]
  }

  /** The characters an escape stands for; nothing for zero or half a surrogate pair. */
  function Unescape(s: string): string
    requires Escapable(s)
  {
    match s[0]
    case 'b' => [BACKSPACE]
    case 'f' => [FORM_FEED]
    case 'n' => "\n"
    case 'r' => "\r"
    case 't' => "\t"
    case 'u' =>
      var uc := Code(s[1..]);
      if TwoUnits(s) then (if IsLowSurrogate(Code(s[7..])) then Utf8(Paired(uc, Code(s[7..]))) else [])
      else if IsHighSurrogate(uc) || IsLowSurrogate(uc) || uc == 0 then [] else Utf8(uc)
    case c => [c]
  }

  /** The escapes the model covers; `s` follows the backslash. */
  predicate Escapable(s: string) {
    s != [] && (s[0] == 'u' ==> HasCode(s[1..]) && (TwoUnits(s) ==> HasCode(s[7..])))
  }

  function EscapeLength(s: string): nat
    requires Escapable(s)
    ensures EscapeLength(s) <= |s|
  {
    if s[0] != 'u' then 1 else if TwoUnits(s) then 11 else 5
  }

  function Prepend<T>(xs: seq<T>, p: Parsed<seq<T>>): Parsed<seq<T>> {
    if p.Ok? then Ok(xs + p.value, p.rest) else p
  }

  lemma PrependTwice<T>(xs: seq<T>, ys: seq<T>, p: Parsed<seq<T>>)
    ensures Prepend(xs, Prepend(ys, p)) == Prepend(xs + ys, p)
  {
    if p.Ok? { assert xs + (ys + p.value) == xs + ys + p.value; }
  }

  lemma PrependNone<T>(p: Parsed<seq<T>>)
    ensures Prepend([], p) == p
  {
    if p.Ok? { assert [] + p.value == p.value; }
  }

  /** The characters up to the closing quote (or the end of the text). */
  function CharsAt(s: string): (p: Parsed<string>)
    ensures p.Ok? ==> |p.rest| <= |s|
  {
    if s == [] then Ok([], [])
    else if s[0] == '\"' then Ok([], s[1..])
    else if s[0] != '\\' then Prepend([s[0]], CharsAt(s[1..]))
    else if !Escapable(s[1..]) then Beyond
    else Prepend(Unescape(s[1..]), CharsAt(s[1 + EscapeLength(s[1..])..]))
  }

  function StringAt(s: string): (p: Parsed<string>)
    ensures p.Ok? ==> |p.rest| < |s|
  {
    if Starts(s, '\"') then CharsAt(s[1..]) else Fail
  }

  /** What the first loop of parse_string counts. */
  function Units(s: string): nat {
    if s == [] || s[0] == '\"' then 0
    else if s[0] != '\\' then 1 + Units(s[1..])
    else if |s| == 1 then 1
    else 1 + Units(s[2..])
  }

  lemma HexUnits(s: string)
    requires HasCode(s)
    ensures Units(s) == 4 + Units(s[4..])
  {
    assert s[1..][1..] == s[2..] && s[2..][1..] == s[3..] && s[3..][1..] == s[4..];
    assert Units(s[3..]) == 1 + Units(s[4..]);
    assert Units(s[2..]) == 1 + Units(s[3..]);
    assert Units(s[1..]) == 1 + Units(s[2..]);
  }

  /** parse_string */
  method ParseString(str: string) returns (p: Parsed<string>)
    ensures p == StringAt(str)
  {
    if !Starts(str, '\"') {
      return Fail;
    }
    var ptr := str[1..];
    var len: nat := 0;
    while ptr != [] && ptr[0] != '\"'
      invariant len + Units(ptr) == Units(str[1..])
      decreases |ptr|
    {
      len := len + 1;
      ptr := if ptr[0] == '\\' && |ptr| > 1 then ptr[2..] else ptr[1..];
    }
    var out := new char[len + 1];
    var at: nat := 0;
    ptr := str[1..];
    PrependNone(CharsAt(ptr));
    assert out[..0] == [];
    while ptr != [] && ptr[0] != '\"'
      invariant at + Units(ptr) <= len
      invariant CharsAt(str[1..]) == Prepend(out[..at], CharsAt(ptr))
      decreases |ptr|
    {
      ghost var done := out[..at];
      PrependStep(done, ptr);
      if ptr[0] != '\\' {
        out[at] := ptr[0];
        at := at + 1;
        assert out[..at] == done + [ptr[0]];
        ptr := ptr[1..];
      } else if !Escapable(ptr[1..]) {
        return Beyond;
      } else {
        assert "\\" + ptr[1..] == ptr;
        at, ptr := PutUnescaped(out, at, ptr[1..]);
      }
    }
    assert out[..at] + [] == out[..at];
    p := Ok(out[..at], if Starts(ptr, '\"') then ptr[1..] else ptr);
    out[at] := '\0';
  }

  lemma PrependStep(done: string, s: string)
    requires s != [] && s[0] != '\"'
    ensures s[0] != '\\' ==> Prepend(done, CharsAt(s)) == Prepend(done + [s[0]], CharsAt(s[1..]))
    ensures s[0] == '\\' && Escapable(s[1..]) ==>
              && Prepend(done, CharsAt(s)) ==
                 Prepend(done + Unescape(s[1..]), CharsAt(s[1 + EscapeLength(s[1..])..]))
    ensures s[0] == '\\' && !Escapable(s[1..]) ==> Prepend(done, CharsAt(s)) == Beyond
  {
    if s[0] != '\\' {
      PrependTwice(done, [s[0]], CharsAt(s[1..]));
    } else if Escapable(s[1..]) {
      PrependTwice(done, Unescape(s[1..]), CharsAt(s[1 + EscapeLength(s[1..])..]));
    }
  }

  /** The switch of parse_string; `ptr` follows the backslash. */
  method PutUnescaped(out: array<char>, at: nat, ptr: string) returns (next: nat, rest: string)
    requires Escapable(ptr) && at + Units("\\" + ptr) < out.Length
    modifies out
    ensures rest == ptr[EscapeLength(ptr)..]
    ensures at + Units("\\" + ptr) >= next + Units(rest) && next <= out.Length
    ensures out[..next] == old(out[..at]) + Unescape(ptr)
  {
    assert ("\\" + ptr)[2..] == ptr[1..];
    next := at + 1;
    rest := ptr;
    match ptr[0] {
      case 'b' => out[at] := BACKSPACE;
      case 'f' => out[at] := FORM_FEED;
      case 'n' => out[at] := '\n';
      case 'r' => out[at] := '\r';
      case 't' => out[at] := '\t';
      case 'u' => {
        next, rest := PutUnit(out, at, ptr);
        return;
      }
      case c => out[at] := c;
    }
    rest := rest[1..];
  }

  /** Its case for `\u`. */
  method PutUnit(out: array<char>, at: nat, ptr: string) returns (next: nat, rest: string)
    requires Escapable(ptr) && ptr[0] == 'u' && at + Units("\\" + ptr) < out.Length
    modifies out
    ensures rest == ptr[EscapeLength(ptr)..]
    ensures at + Units("\\" + ptr) >= next + Units(rest) && next <= out.Length
    ensures out[..next] == old(out[..at]) + Unescape(ptr)
  {
    UnitUnits(ptr);
    var uc := Code(ptr[1..]);
    rest, next := ptr[4..], at;
    if IsLowSurrogate(uc) || uc == 0 {
      return at, rest[1..];
    }
    if IsHighSurrogate(uc) {
      if !(|rest| > 2 && rest[1] == '\\' && rest[2] == 'u') {
        return at, rest[1..];
      }
      assert ptr[5..][..2] == "\\u";
      var uc2 := Code(rest[3..]);
      rest := rest[6..];
      if !IsLowSurrogate(uc2) {
        return at, rest[1..];
      }
      uc := Paired(uc, uc2);
    }
    var bytes := Utf8(uc);
    next := at + |bytes|;
    for i := 0 to |bytes|
      invariant out[..at + i] == old(out[..at]) + bytes[..i]
    {
      out[at + i] := bytes[i];
    }
    assert bytes[..|bytes|] == bytes;
    rest := rest[1..];
  }

  /** What the first loop counts for a `\u` escape. */
  lemma UnitUnits(ptr: string)
    requires Escapable(ptr) && ptr[0] == 'u'
    ensures Units("\\" + ptr) == (if TwoUnits(ptr) then 10 else 5) + Units(ptr[EscapeLength(ptr)..])
  {
    assert ("\\" + ptr)[2..] == ptr[1..];
    HexUnits(ptr[1..]);
    assert ptr[1..][4..] == ptr[5..];
    if TwoUnits(ptr) {
      assert ptr[5..][0] == '\\' && ptr[5..][2..] == ptr[7..];
      HexUnits(ptr[7..]);
      assert ptr[7..][4..] == ptr[11..];
    }
  }

  // ---------- a printed string parses to itself ----------

  lemma EscapedChar(c: char, tail: string)
    requires c != '\0'
    ensures CharsAt(Escape(c) + tail) == Prepend([c], CharsAt(tail))
  {
    var s := Escape(c) + tail;
    if c as int > 31 && c != '\"' && c != '\\' {
      assert s[1..] == tail;
    } else if HasShortEscape(c) {
      assert s[2..] == tail;
    } else {
      assert s[2..][..4] == Hex4(c as int);
      assert s[1..][1..] == s[2..] && Code(s[2..]) == c as int;
      assert s[6..] == tail;
    }
  }

  lemma {:induction false} StringRoundTrip(str: string, tail: string)
    requires NulFree(str)
    ensures StringAt(StringText(str) + tail) == Ok(str, tail)
  {
    CharsRoundTrip(str, tail);
    assert (StringText(str) + tail)[1..] == EscapeAll(str) + ("\"" + tail);
  }

  lemma {:induction false} CharsRoundTrip(str: string, tail: string)
    requires NulFree(str)
    ensures CharsAt(EscapeAll(str) + ("\"" + tail)) == Ok(str, tail)
  {
    var end := "\"" + tail;
    if str == [] {
      assert EscapeAll(str) + end == end && end[1..] == tail;
    } else {
      CharsRoundTrip(str[1..], tail);
      assert EscapeAll(str) + end == Escape(str[0]) + (EscapeAll(str[1..]) + end);
      EscapedChar(str[0], EscapeAll(str[1..]) + end);
      assert [str[0]] + str[1..] == str;
    }
  }
}

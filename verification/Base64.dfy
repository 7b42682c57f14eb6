/** stropt.cpp: the base64 arms of strEncode and strDecode. Shifts and bit masks are written as
    divisions and remainders by powers of two, `|` of separate bits as a sum. */
module Base64 {

  import opened Seqs

  /** The alphabet (table 1 of RFC 4648): capitals, small letters, digits, plus and slash. */
  function Letter(v: nat): char
    requires v < 64
  {
    if v < 26 then (v + 'A' as int) as char
    else if v < 52 then (v - 26 + 'a' as int) as char
    else if v < 62 then (v - 52 + '0' as int) as char
    else if v == 62 then '+' else '/'
  }

  /** getBase64Code; characters outside the alphabet count as zero. */
  function GetBase64Code(c: char): (v: nat)
    ensures v < 64
  {
    if c == '+' then 62
    else if c == '/' then 63
    else if 'A' <= c <= 'Z' then c as int - 'A' as int
    else if 'a' <= c <= 'z' then 26 + c as int - 'a' as int
    else if '0' <= c <= '9' then 52 + c as int - '0' as int
    else 0
  }

  /** isspace in the C locale */
  predicate IsSpace(c: char) { c == ' ' || 9 <= c as int <= 13 }

  predicate AllSpace(s: string) { forall i :: 0 <= i < |s| ==> IsSpace(s[i]) }

  lemma CodeOfLetter(v: nat)
    requires v < 64
    ensures GetBase64Code(Letter(v)) == v && Letter(v) != '=' && !IsSpace(Letter(v))
  {
  }

  /** The alphabet of section 4 of RFC 4648, letter by letter. */
  lemma Alphabet()
    ensures Letter(0) == 'A' && Letter(1) == 'B' && Letter(2) == 'C' && Letter(3) == 'D'
    ensures Letter(4) == 'E' && Letter(5) == 'F' && Letter(6) == 'G' && Letter(7) == 'H'
    ensures Letter(8) == 'I' && Letter(9) == 'J' && Letter(10) == 'K' && Letter(11) == 'L'
    ensures Letter(12) == 'M' && Letter(13) == 'N' && Letter(14) == 'O' && Letter(15) == 'P'
    ensures Letter(16) == 'Q' && Letter(17) == 'R' && Letter(18) == 'S' && Letter(19) == 'T'
    ensures Letter(20) == 'U' && Letter(21) == 'V' && Letter(22) == 'W' && Letter(23) == 'X'
    ensures Letter(24) == 'Y' && Letter(25) == 'Z' && Letter(26) == 'a' && Letter(27) == 'b'
    ensures Letter(28) == 'c' && Letter(29) == 'd' && Letter(30) == 'e' && Letter(31) == 'f'
    ensures Letter(32) == 'g' && Letter(33) == 'h' && Letter(34) == 'i' && Letter(35) == 'j'
    ensures Letter(36) == 'k' && Letter(37) == 'l' && Letter(38) == 'm' && Letter(39) == 'n'
    ensures Letter(40) == 'o' && Letter(41) == 'p' && Letter(42) == 'q' && Letter(43) == 'r'
    ensures Letter(44) == 's' && Letter(45) == 't' && Letter(46) == 'u' && Letter(47) == 'v'
    ensures Letter(48) == 'w' && Letter(49) == 'x' && Letter(50) == 'y' && Letter(51) == 'z'
    ensures Letter(52) == '0' && Letter(53) == '1' && Letter(54) == '2' && Letter(55) == '3'
    ensures Letter(56) == '4' && Letter(57) == '5' && Letter(58) == '6' && Letter(59) == '7'
    ensures Letter(60) == '8' && Letter(61) == '9' && Letter(62) == '+' && Letter(63) == '/'
  {
  }

  // ---------- groups ----------

  /** The four characters for one to three bytes. */
  function Quad(g: seq<byte>): (q: string)
    requires 1 <= |g| <= 3
    ensures |q| == 4
  {
    if |g| == 1 then [Letter(g[0] / 4), Letter(g[0] % 4 * 16), '=', '=']
    else if |g| == 2 then [Letter(g[0] / 4), Letter(g[0] % 4 * 16 + g[1] / 16), Letter(g[1] % 16 * 4), '=']
    else [Letter(g[0] / 4), Letter(g[0] % 4 * 16 + g[1] / 16), Letter(g[1] % 16 * 4 + g[2] / 64), Letter(g[2] % 64)]
  }

  function Truncate(v: nat): byte { v % 256 }

  /** The bytes for four characters; none if the second is padding. */
  function Bytes(q: string): (g: seq<byte>)
    requires |q| == 4
  {
    if q[1] == '=' then []
    else
      var w0, w1, w2 := GetBase64Code(q[0]), GetBase64Code(q[1]), GetBase64Code(q[2]);
      var first := [Truncate(w0 * 4 + w1 / 16)];
      if q[2] == '=' then first
      else
        var second := first + [Truncate(w1 * 16 % 256 + w2 / 4)];
        if q[3] == '=' then second else second + [Truncate(w2 * 64 % 256 + GetBase64Code(q[3]))]
  }

  lemma QuadRoundTrip(g: seq<byte>)
    requires 1 <= |g| <= 3
    ensures Bytes(Quad(g)) == g && !IsSpace(Quad(g)[0])
  {
    hide *;
    if |g| == 1 {
      OneByte(g[0]);
      assert g == [g[0]];
    } else if |g| == 2 {
      TwoBytes(g[0], g[1]);
      assert g == [g[0], g[1]];
    } else {
      ThreeBytes(g[0], g[1], g[2]);
      assert g == [g[0], g[1], g[2]];
    }
  }

  lemma OneByte(a: byte)
    ensures Bytes(Quad([a])) == [a] && !IsSpace(Quad([a])[0])
  {
    CodeOfLetter(a / 4);
    CodeOfLetter(a % 4 * 16);
    Halves(a, 0);
    hide Letter, GetBase64Code, IsSpace, Truncate;
  }

  lemma TwoBytes(a: byte, b: byte)
    ensures Bytes(Quad([a, b])) == [a, b] && !IsSpace(Quad([a, b])[0])
  {
    CodeOfLetter(a / 4);
    CodeOfLetter(a % 4 * 16 + b / 16);
    CodeOfLetter(b % 16 * 4);
    Halves(a, b / 16);
    Middle(a % 4, b, 0);
    hide Letter, GetBase64Code, IsSpace, Truncate;
  }

  lemma ThreeBytes(a: byte, b: byte, c: byte)
    ensures Bytes(Quad([a, b, c])) == [a, b, c] && !IsSpace(Quad([a, b, c])[0])
  {
    CodeOfLetter(a / 4);
    CodeOfLetter(a % 4 * 16 + b / 16);
    CodeOfLetter(b % 16 * 4 + c / 64);
    CodeOfLetter(c % 64);
    Halves(a, b / 16);
    Middle(a % 4, b, c / 64);
    End(b % 16, c);
    hide Letter, GetBase64Code, IsSpace, Truncate;
  }

  /** The first byte from its six high and two low bits. */
  lemma Halves(b: byte, rest: nat)
    requires rest < 16
    ensures Truncate(b / 4 * 4 + (b % 4 * 16 + rest) / 16) == b
  {
    assert (b % 4 * 16 + rest) / 16 == b % 4;
  }

  lemma Middle(low: nat, b: byte, rest: nat)
    requires low < 4 && rest < 4
    ensures Truncate((low * 16 + b / 16) * 16 % 256 + (b % 16 * 4 + rest) / 4) == b
  {
    var q, r: nat := b / 16, b % 16;
    assert b == q * 16 + r && q < 16;
    Shifted(low, q);
    assert (r * 4 + rest) / 4 == r;
  }

  lemma Shifted(low: nat, q: nat)
    requires q < 16
    ensures (low * 16 + q) * 16 % 256 == q * 16
  {
    assert (low * 16 + q) * 16 == low * 256 + q * 16;
  }

  lemma End(low: nat, b: byte)
    requires low < 16
    ensures Truncate((low * 4 + b / 64) * 64 % 256 + b % 64) == b
  {
    assert (low * 4 + b / 64) * 64 % 256 == b / 64 * 64;
  }

  /** A full group is one 24-bit number, written in base 256 and in base 64 (section 4 of
      RFC 4648). */
  lemma QuadValue(g: seq<byte>)
    requires |g| == 3
    ensures var q, b: seq<int> := Quad(g), g;
            GetBase64Code(q[0]) * 0x4_0000 + GetBase64Code(q[1]) * 0x1000 + GetBase64Code(q[2]) * 0x40 + GetBase64Code(q[3])
            == b[0] * 0x1_0000 + b[1] * 0x100 + b[2]
  {
    CodeOfLetter(g[0] / 4);
    CodeOfLetter(g[0] % 4 * 16 + g[1] / 16);
    CodeOfLetter(g[1] % 16 * 4 + g[2] / 64);
    CodeOfLetter(g[2] % 64);
    hide Letter, GetBase64Code;
  }

  /** A short group is its bits and as many zero bits as fill the last character (sections 3.5 and
      4 of RFC 4648). */
  lemma ShortQuadValue(g: seq<byte>)
    requires 1 <= |g| <= 2
    ensures var q, b: seq<int> := Quad(g), g;
            && q[3] == '='
            && if |g| == 1
               then q[2] == '=' && GetBase64Code(q[0]) * 0x40 + GetBase64Code(q[1]) == b[0] * 0x10
               else GetBase64Code(q[0]) * 0x1000 + GetBase64Code(q[1]) * 0x40 + GetBase64Code(q[2])
                    == (b[0] * 0x100 + b[1]) * 4
    ensures forall i :: 0 <= i <= |g| ==> Quad(g)[i] != '='
  {
    CodeOfLetter(g[0] / 4);
    if |g| == 1 {
      CodeOfLetter(g[0] % 4 * 16);
    } else {
      CodeOfLetter(g[0] % 4 * 16 + g[1] / 16);
      CodeOfLetter(g[1] % 16 * 4);
    }
    hide Letter, GetBase64Code;
  }

  // ---------- whole strings ----------

  /** A separator goes before every nineteenth group but the first. */
  function Break(i: nat, sep: string): string { if i > 0 && i % 57 == 0 then sep else [] }

  function GroupAt(input: seq<byte>, i: nat): (g: seq<byte>)
    requires i < |input|
    ensures 1 <= |g| <= 3
  {
    input[i..if i + 3 <= |input| then i + 3 else |input|]
  }

  function EncodeFrom(input: seq<byte>, i: nat, sep: string): string
    decreases if i < |input| then |input| - i else 0
  {
    if i >= |input| then [] else Break(i, sep) + (Quad(GroupAt(input, i)) + EncodeFrom(input, i + 3, sep))
  }

  function DecodeFrom(s: string): seq<byte>
    decreases |s|
  {
    if s == [] then []
    else if IsSpace(s[0]) then DecodeFrom(s[1..])
    else if |s| < 4 then []
    else Bytes(s[..4]) + DecodeFrom(s[4..])
  }

  lemma {:induction false} SkipSpaces(w: string, s: string)
    requires AllSpace(w)
    ensures DecodeFrom(w + s) == DecodeFrom(s)
    decreases |w|
  {
    if w == [] {
      assert w + s == s;
    } else {
      assert (w + s)[1..] == w[1..] + s;
      SkipSpaces(w[1..], s);
    }
  }

  /** Decoding undoes encoding, for all bytes and every separator of blanks. */
  lemma {:induction false} RoundTrip(input: seq<byte>, i: nat, sep: string)
    requires i <= |input| && AllSpace(sep)
    ensures DecodeFrom(EncodeFrom(input, i, sep)) == input[i..]
    decreases |input| - i
  {
    if i < |input| {
      var g := GroupAt(input, i);
      var rest := EncodeFrom(input, i + 3, sep);
      SkipSpaces(Break(i, sep), Quad(g) + rest);
      QuadRoundTrip(g);
      hide Quad, Bytes, IsSpace;
      assert (Quad(g) + rest)[..4] == Quad(g) && (Quad(g) + rest)[4..] == rest;
      if i + 3 < |input| {
        RoundTrip(input, i + 3, sep);
        assert input[i..] == g + input[i + 3..];
      } else {
        assert rest == [] && input[i..] == g;
      }
    }
  }

  /** Separators before the groups from `j` on that come before group `k` or right in front of it. */
  function Breaks(j: nat, k: nat): int { k / 19 - (if j == 0 then 0 else (j - 1) / 19) }

  lemma BreaksStep(j: nat, k: nat, sep: string)
    requires j < k
    ensures Breaks(j, k) == Breaks(j + 1, k) + (if j > 0 && j % 19 == 0 then 1 else 0) && Breaks(j + 1, k) >= 0
    ensures |sep| * Breaks(j, k) == |sep| * Breaks(j + 1, k) + (if j > 0 && j % 19 == 0 then |sep| else 0)
    ensures |sep| * Breaks(j + 1, k) >= 0
  {
    Nineteen(j);
    assert j / 19 <= k / 19;
    var b := Breaks(j + 1, k);
    assert |sep| * (b + 1) == |sep| * b + |sep|;
    Product(|sep|, b);
  }

  lemma Nineteen(j: nat)
    ensures j > 0 ==> j / 19 == (j - 1) / 19 + (if j % 19 == 0 then 1 else 0)
    ensures 3 * j % 57 == 0 <==> j % 19 == 0
  {
    assert 3 * j == 57 * (j / 19) + 3 * (j % 19);
  }

  lemma Product(a: nat, b: nat)
    ensures a * b >= 0
  {
  }

  /** Where group `k` is, in the text from group `j` on: four characters to a group, and the separators. */
  lemma {:induction false} GroupPlace(input: seq<byte>, j: nat, k: nat, sep: string)
    requires j <= k && 3 * k < |input|
    ensures var s, at := EncodeFrom(input, 3 * j, sep), 4 * (k - j) + |sep| * Breaks(j, k);
            && 0 <= at && at + 4 <= |s| && s[at..at + 4] == Quad(GroupAt(input, 3 * k))
            && (k > 0 && k % 19 == 0 ==> at >= |sep| && s[at - |sep|..at] == sep)
    decreases k - j
  {
    hide Quad, Break, EncodeFrom, Breaks, GroupAt;
    var here, quad, rest := Break(3 * j, sep), Quad(GroupAt(input, 3 * j)), EncodeFrom(input, 3 * (j + 1), sep);
    EncodeStep(input, j, sep);
    if j == k {
      BreaksHere(k, sep);
      FirstThree(here, quad, rest);
    } else {
      GroupPlace(input, j + 1, k, sep);
      BreaksStep(j, k, sep);
      var later := 4 * (k - (j + 1)) + |sep| * Breaks(j + 1, k);
      Inside(here, quad, rest, later, later + 4);
      if k % 19 == 0 {
        Inside(here, quad, rest, later - |sep|, later);
      }
    }
  }

  lemma EncodeStep(input: seq<byte>, j: nat, sep: string)
    requires 3 * j < |input|
    ensures EncodeFrom(input, 3 * j, sep) ==
            Break(3 * j, sep) + (Quad(GroupAt(input, 3 * j)) + EncodeFrom(input, 3 * (j + 1), sep))
    ensures |Break(3 * j, sep)| == if j > 0 && j % 19 == 0 then |sep| else 0
  {
    hide Quad, GroupAt, Break, EncodeFrom;
    EncodeNext(input, 3 * j, sep);
    BreakLength(j, sep);
  }

  lemma EncodeNext(input: seq<byte>, i: nat, sep: string)
    requires i < |input|
    ensures EncodeFrom(input, i, sep) == Break(i, sep) + (Quad(GroupAt(input, i)) + EncodeFrom(input, i + 3, sep))
  {
    hide Quad, GroupAt, Break;
  }

  lemma BreakLength(j: nat, sep: string)
    ensures |Break(3 * j, sep)| == if j > 0 && j % 19 == 0 then |sep| else 0
  {
    Nineteen(j);
  }

  lemma BreaksHere(k: nat, sep: string)
    ensures |sep| * Breaks(k, k) == |Break(3 * k, sep)| && (k > 0 && k % 19 == 0 ==> Break(3 * k, sep) == sep)
  {
    Nineteen(k);
    assert Breaks(k, k) == if k > 0 && k % 19 == 0 then 1 else 0;
  }

  lemma Inside(a: string, b: string, c: string, i: nat, j: nat)
    requires i <= j <= |c|
    ensures (a + (b + c))[|a| + |b| + i..|a| + |b| + j] == c[i..j]
  {
  }

  lemma FirstThree(a: string, b: string, c: string)
    ensures var s := a + (b + c); |s| >= |a| + |b| && s[0..|a|] == a && s[|a|..|a| + |b|] == b
  {
  }

  lemma {:induction false} EncodedLength(input: seq<byte>, j: nat, sep: string)
    requires 3 * j < |input|
    ensures var last := (|input| - 1) / 3;
            |EncodeFrom(input, 3 * j, sep)| == 4 * (last - j + 1) + |sep| * Breaks(j, last)
    decreases |input| - 3 * j
  {
    hide Quad, Break, EncodeFrom, Breaks, GroupAt;
    var last := (|input| - 1) / 3;
    EncodeStep(input, j, sep);
    if 3 * (j + 1) < |input| {
      EncodedLength(input, j + 1, sep);
      BreaksStep(j, last, sep);
    } else {
      EncodeEnd(input, j + 1, sep);
      BreaksHere(j, sep);
    }
  }

  lemma EncodeEnd(input: seq<byte>, j: nat, sep: string)
    requires 3 * j >= |input|
    ensures EncodeFrom(input, 3 * j, sep) == []
  {
  }

  /** The place of every group and of every separator in an encoded text, and its length. */
  lemma Layout(input: seq<byte>, k: nat, sep: string)
    requires 3 * k < |input|
    ensures var s, at := EncodeFrom(input, 0, sep), 4 * k + |sep| * (k / 19);
            && 0 <= at && at + 4 <= |s| && s[at..at + 4] == Quad(GroupAt(input, 3 * k))
            && (k > 0 && k % 19 == 0 ==> at >= |sep| && s[at - |sep|..at] == sep)
            && |s| == 4 * ((|input| - 1) / 3 + 1) + |sep| * ((|input| - 1) / 3 / 19)
  {
    GroupPlace(input, 0, k, sep);
    EncodedLength(input, 0, sep);
  }

  /** In decoding, any four characters behind any blanks are a group. */
  lemma DecodeGroup(w: string, q: string, s: string)
    requires AllSpace(w) && |q| == 4 && !IsSpace(q[0])
    ensures DecodeFrom(w + (q + s)) == Bytes(q) + DecodeFrom(s)
  {
    SkipSpaces(w, q + s);
    assert (q + s)[..4] == q && (q + s)[4..] == s;
  }

  /** strEncode, base64 */
  method StrEncode(input: seq<byte>, opt1: string) returns (sout: string)
    ensures sout == EncodeFrom(input, 0, opt1)
  {
    sout := [];
    var iSz: nat := 0;
    while iSz < |input|
      invariant sout + EncodeFrom(input, iSz, opt1) == EncodeFrom(input, 0, opt1)
      decreases if iSz < |input| then |input| - iSz else 0
    {
      ghost var before := sout;
      if iSz != 0 && iSz % 57 == 0 && |opt1| > 0 {
        sout := sout + opt1;
      }
      assert sout == before + Break(iSz, opt1);
      sout := PushQuad(sout, input, iSz);
      Regroup(before, Break(iSz, opt1), Quad(GroupAt(input, iSz)), EncodeFrom(input, iSz + 3, opt1));
      hide Quad, Break, GroupAt;
      iSz := iSz + 3;
    }
    assert sout + [] == sout;
  }

  lemma Regroup(a: string, b: string, c: string, d: string)
    ensures (a + b + c) + d == a + (b + (c + d))
  {
  }

  /** The branches of the encoding loop. */
  method PushQuad(sout0: string, input: seq<byte>, iSz: nat) returns (sout: string)
    requires iSz < |input|
    ensures sout == sout0 + Quad(GroupAt(input, iSz))
  {
    hide Letter;
    sout := sout0 + [Letter(input[iSz] / 4)];
    if iSz + 1 >= |input| {
      sout := sout + [Letter(input[iSz] % 4 * 16)];
      sout := sout + "==";
    } else {
      sout := sout + [Letter(input[iSz] % 4 * 16 + input[iSz + 1] / 16)];
      if iSz + 2 >= |input| {
        sout := sout + [Letter(input[iSz + 1] % 16 * 4)];
        sout := sout + ['='];
      } else {
        sout := sout + [Letter(input[iSz + 1] % 16 * 4 + input[iSz + 2] / 64)];
        sout := sout + [Letter(input[iSz + 2] % 64)];
      }
    }
  }

  /** strDecode, base64 */
  method StrDecode(input: string) returns (sout: seq<byte>)
    ensures sout == DecodeFrom(input)
  {
    hide Bytes, IsSpace;
    sout := [];
    var iSz: nat := 0;
    assert input[0..] == input;
    while iSz < |input|
      invariant sout + DecodeFrom(if iSz <= |input| then input[iSz..] else []) == DecodeFrom(input)
      decreases if iSz < |input| then |input| - iSz else 0
    {
      ghost var s := input[iSz..];
      if IsSpace(input[iSz]) {
        assert s[1..] == input[iSz + 1..];
        iSz := iSz + 1;
        continue;
      }
      if iSz + 3 < |input| {
        var group := PushBytes(input[iSz..iSz + 4]);
        assert s[..4] == input[iSz..iSz + 4] && s[4..] == input[iSz + 4..];
        assert (sout + group) + DecodeFrom(s[4..]) == sout + (group + DecodeFrom(s[4..]));
        sout := sout + group;
      }
      iSz := iSz + 4;
    }
    assert sout + [] == sout;
  }

  /** The branches of the decoding loop. */
  method PushBytes(q: string) returns (g: seq<byte>)
    requires |q| == 4
    ensures g == Bytes(q)
  {
    hide GetBase64Code;
    g := [];
    if q[1] != '=' {
      var wCode1 := GetBase64Code(q[1]);
      g := g + [Truncate(GetBase64Code(q[0]) * 4 + wCode1 / 16)];
      if q[2] != '=' {
        var wCode2 := GetBase64Code(q[2]);
        g := g + [Truncate(wCode1 * 16 % 256 + wCode2 / 4)];
        if q[3] != '=' {
          g := g + [Truncate(wCode2 * 64 % 256 + GetBase64Code(q[3]))];
        }
      }
    }
  }
}

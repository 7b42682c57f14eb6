/** regex.c: the backtracking matcher, set against a declarative reading of its
    patterns. Pointers into the pattern and the text are suffixes of the two. */
module Regex {

  /** regex_t. The union holds a character also where none was put in; such a token is
      compared by it when it stands where an atom should. */
  datatype Token =
    | UNUSED | DOT
    | BEGIN(ch: char) | END(ch: char) | QUESTIONMARK(ch: char) | STAR(ch: char) | PLUS(ch: char)
    | CHAR(ch: char)
    | CHAR_CLASS(ccl: set<char>) | INV_CHAR_CLASS(ccl: set<char>)
    | DIGIT | NOT_DIGIT | ALPHA | NOT_ALPHA | WHITESPACE | NOT_WHITESPACE

  predicate MatchDigit(c: char) { '0' <= c <= '9' }

  predicate MatchAlpha(c: char) { 'a' <= c <= 'z' || 'A' <= c <= 'Z' }

  /** Blank, tab, newline, carriage return, form feed, vertical tab. */
  predicate MatchWhitespace(c: char) {
    c == ' ' || c == '\t' || c == '\n' || c == '\r' || c == 12 as char || c == 11 as char
  }

  predicate MatchAlphanum(c: char) { c == '_' || MatchAlpha(c) || MatchDigit(c) }

  predicate IsAtom(t: Token) { !t.UNUSED? }

  predicate IsRepeat(t: Token) { t.QUESTIONMARK? || t.STAR? || t.PLUS? }

  predicate MatchOne(p: Token, c: char)
    requires IsAtom(p)
  {
    match p
    case DOT => true
    case CHAR_CLASS(ccl) => c in ccl
    case INV_CHAR_CLASS(ccl) => c !in ccl
    case DIGIT => MatchDigit(c)
    case NOT_DIGIT => !MatchDigit(c)
    case ALPHA => MatchAlphanum(c)
    case NOT_ALPHA => !MatchAlphanum(c)
    case WHITESPACE => MatchWhitespace(c)
    case NOT_WHITESPACE => !MatchWhitespace(c)
    case BEGIN(ch) => ch == c
    case END(ch) => ch == c
    case QUESTIONMARK(ch) => ch == c
    case STAR(ch) => ch == c
    case PLUS(ch) => ch == c
    case CHAR(ch) => ch == c
  }

  /** Which characters the classes take, by their numbers. */
  lemma Classes(c: char)
    ensures var n := c as int;
            && MatchOne(DOT, c)
            && (MatchOne(DIGIT, c) <==> 48 <= n <= 57)
            && (MatchOne(ALPHA, c) <==> 48 <= n <= 57 || 65 <= n <= 90 || 97 <= n <= 122 || n == 95)
            && (MatchOne(WHITESPACE, c) <==> 9 <= n <= 13 || n == 32)
            && (MatchOne(NOT_DIGIT, c) <==> !MatchOne(DIGIT, c))
            && (MatchOne(NOT_ALPHA, c) <==> !MatchOne(ALPHA, c))
            && (MatchOne(NOT_WHITESPACE, c) <==> !MatchOne(WHITESPACE, c))
  {
  }

  /** The others take the character, or the set, that they hold. */
  lemma Literals(c: char, ch: char, ccl: set<char>)
    ensures MatchOne(CHAR_CLASS(ccl), c) <==> c in ccl
    ensures MatchOne(INV_CHAR_CLASS(ccl), c) <==> c !in ccl
    ensures forall t :: t in {CHAR(ch), BEGIN(ch), END(ch), QUESTIONMARK(ch), STAR(ch), PLUS(ch)} ==>
              (MatchOne(t, c) <==> c == ch)
  {
  }

  // ---------- what a pattern means ----------

  /** The end-of-pattern sentinel is there, as it is in all that re_compile makes. */
  predicate Terminated(p: seq<Token>) { exists i :: 0 <= i < |p| && p[i].UNUSED? }

  lemma Shorter(p: seq<Token>)
    requires Terminated(p) && !p[0].UNUSED?
    ensures |p| > 1 && Terminated(p[1..]) && (IsRepeat(p[1]) ==> Terminated(p[2..]))
  {
    var i :| 0 <= i < |p| && p[i].UNUSED?;
    assert p[1..][i - 1].UNUSED?;
    if IsRepeat(p[1]) { assert p[2..][i - 2].UNUSED?; }
  }

  /** A `$` that is the last token. */
  predicate Last(p: seq<Token>)
    requires Terminated(p)
  {
    p[0].END? && |p| > 1 && p[1].UNUSED?
  }

  datatype Item = Item(atom: Token, rep: Token)

  /** The pattern's items: atoms with an optional repeat mark after each, and at the end an
      optional `$`. `UNUSED` marks an atom that stands for itself. */
  function Items(p: seq<Token>): (items: seq<Item>)
    requires Terminated(p)
    ensures forall i :: 0 <= i < |items| ==> IsAtom(items[i].atom)
  {
    if p[0].UNUSED? || Last(p) then []
    else
      Shorter(p);
      if IsRepeat(p[1]) then [Item(p[0], p[1])] + Items(p[2..])
    else [Item(p[0], UNUSED)] + Items(p[1..])
  }

  predicate Anchored(p: seq<Token>)
    requires Terminated(p)
  {
    if p[0].UNUSED? then false
    else if Last(p) then true
    else
      Shorter(p);
      Anchored(if IsRepeat(p[1]) then p[2..] else p[1..])
  }

  /** How tokens make items: a repeat mark belongs to the token before it, a dollar counts at the end
      only. */
  lemma ItemsExample(a: char, b: char)
    ensures var p := [CHAR(a), STAR('*'), DIGIT, QUESTIONMARK('?'), END('$'), CHAR(b), PLUS('+'), END('$'), UNUSED];
            && Terminated(p) && Anchored(p)
            && Items(p) == [Item(CHAR(a), STAR('*')), Item(DIGIT, QUESTIONMARK('?')), Item(END('$'), UNUSED),
                            Item(CHAR(b), PLUS('+'))]
    ensures var p := [DOT, UNUSED]; Terminated(p) && !Anchored(p) && Items(p) == [Item(DOT, UNUSED)]
  {
    var p := [CHAR(a), STAR('*'), DIGIT, QUESTIONMARK('?'), END('$'), CHAR(b), PLUS('+'), END('$'), UNUSED];
    assert p[8].UNUSED? && p[2..][6].UNUSED? && p[4..][4].UNUSED? && p[5..][3].UNUSED? && p[7..][1].UNUSED?;
    assert p[2..][2..] == p[4..] && p[4..][1..] == p[5..] && p[5..][2..] == p[7..];
    assert Items(p[7..]) == [] && Anchored(p[7..]);
    assert Items(p[5..]) == [Item(CHAR(b), PLUS('+'))] && Anchored(p[5..]);
    assert Items(p[4..]) == [Item(END('$'), UNUSED)] + Items(p[5..]) && Anchored(p[4..]);
    var q := [DOT, UNUSED];
    assert q[1].UNUSED? && q[1..][0].UNUSED?;
  }

  /** `s` is a stretch of text that one item can stand for. */
  ghost predicate Fits(item: Item, s: seq<char>) {
    && IsAtom(item.atom)
    && (forall i :: 0 <= i < |s| ==> MatchOne(item.atom, s[i]))
    && match item.rep
       case QUESTIONMARK(_) => |s| <= 1
       case STAR(_) => true
       case PLUS(_) => |s| >= 1
       case _ => |s| == 1
  }

  ghost function Concat(parts: seq<seq<char>>): seq<char> {
    if parts == [] then [] else parts[0] + Concat(parts[1..])
  }

  /** `s` is in the language of the items: it can be cut into one stretch per item. */
  ghost predicate InLanguage(items: seq<Item>, s: seq<char>) {
    exists parts: seq<seq<char>> :: Cut(items, s, parts)
  }

  ghost predicate Cut(items: seq<Item>, s: seq<char>, parts: seq<seq<char>>) {
    |parts| == |items| && Concat(parts) == s && forall i :: 0 <= i < |items| ==> Fits(items[i], parts[i])
  }

  /** Some prefix of the text (all of it, if the pattern is anchored at the end) is in
      the language. */
  ghost predicate Matches(items: seq<Item>, anchored: bool, text: seq<char>) {
    exists n: nat :: n <= |text| && PrefixMatch(items, anchored, text, n)
  }

  ghost predicate PrefixMatch(items: seq<Item>, anchored: bool, text: seq<char>, n: nat)
    requires n <= |text|
  {
    InLanguage(items, text[..n]) && (anchored ==> n == |text|)
  }

  ghost predicate PatternMatches(p: seq<Token>, text: seq<char>)
    requires Terminated(p)
  {
    Matches(Items(p), Anchored(p), text)
  }

  lemma NoItems(anchored: bool, text: seq<char>)
    ensures Matches([], anchored, text) <==> (!anchored || text == [])
  {
    if !anchored || text == [] {
      assert Cut([], text[..0], []);
      assert PrefixMatch([], anchored, text, 0);
    }
    if Matches([], anchored, text) {
      var n: nat :| n <= |text| && PrefixMatch([], anchored, text, n);
      var parts :| Cut([], text[..n], parts);
      assert parts == [];
    }
  }

  /** Matching the first item somewhere and the others after it. */
  ghost predicate FirstThenRest(item: Item, items: seq<Item>, anchored: bool, text: seq<char>, m: nat)
    requires m <= |text|
  {
    Fits(item, text[..m]) && Matches(items, anchored, text[m..])
  }

  lemma FirstItem(item: Item, items: seq<Item>, anchored: bool, text: seq<char>)
    ensures Matches([item] + items, anchored, text) <==>
            exists m: nat :: m <= |text| && FirstThenRest(item, items, anchored, text, m)
  {
    if Matches([item] + items, anchored, text) {
      var n: nat :| n <= |text| && PrefixMatch([item] + items, anchored, text, n);
      CutFirst(item, items, anchored, text, n);
    }
    if m: nat :| m <= |text| && FirstThenRest(item, items, anchored, text, m) {
      var n: nat :| n <= |text[m..]| && PrefixMatch(items, anchored, text[m..], n);
      var parts :| Cut(items, text[m..][..n], parts);
      var all := [text[..m]] + parts;
      assert all[1..] == parts;
      assert text[..m + n] == text[..m] + text[m..][..n];
      assert Cut([item] + items, text[..m + n], all);
      assert PrefixMatch([item] + items, anchored, text, m + n);
    }
  }

  lemma CutFirst(item: Item, items: seq<Item>, anchored: bool, text: seq<char>, n: nat)
    requires n <= |text| && PrefixMatch([item] + items, anchored, text, n)
    ensures exists m: nat :: m <= |text| && FirstThenRest(item, items, anchored, text, m)
  {
    var its := [item] + items;
    var parts :| Cut(its, text[..n], parts);
    var m, rest := |parts[0]|, parts[1..];
    assert text[..n] == parts[0] + Concat(rest);
    assert text[..m] == parts[0];
    assert text[m..][..n - m] == Concat(rest);
    forall i | 0 <= i < |items| ensures Fits(items[i], rest[i]) {
      assert items[i] == its[i + 1] && rest[i] == parts[i + 1];
    }
    assert Cut(items, text[m..][..n - m], rest);
    assert its[0] == item;
    assert PrefixMatch(items, anchored, text[m..], n - m);
    assert FirstThenRest(item, items, anchored, text, m);
  }

  // ---------- the matcher ----------

  /** matchpattern, iterative form */
  method MatchPattern(pattern0: seq<Token>, text0: seq<char>) returns (b: bool)
    requires Terminated(pattern0)
    ensures b == PatternMatches(pattern0, text0)
    decreases |pattern0|, 1
  {
    var pattern, text := pattern0, text0;
    while true
      invariant Terminated(pattern) && |pattern| <= |pattern0|
      invariant PatternMatches(pattern, text) == PatternMatches(pattern0, text0)
      decreases |text|
    {
      StepMeaning(pattern, text);
      if pattern[0].UNUSED? || pattern[1].QUESTIONMARK? {
        b := MatchQuestion(pattern[0], if pattern[0].UNUSED? then UNUSED else pattern[1],
                           if pattern[0].UNUSED? then [] else pattern[2..], text);
        return;
      } else if pattern[1].STAR? {
        b := MatchStar(pattern[0], pattern[1], pattern[2..], text);
        return;
      } else if pattern[1].PLUS? {
        b := MatchPlus(pattern[0], pattern[1], pattern[2..], text);
        return;
      } else if pattern[0].END? && pattern[1].UNUSED? {
        return text == [];
      }
      if text == [] || !MatchOne(pattern[0], text[0]) {
        return false;
      }
      pattern, text := pattern[1..], text[1..];
    }
  }

  /** What one item at the front of a pattern asks for. */
  ghost predicate Somewhere(p: Token, rep: Token, pattern: seq<Token>, text: seq<char>)
    requires Terminated(pattern)
  {
    exists m: nat :: m <= |text| && FirstThenRest(Item(p, rep), Items(pattern), Anchored(pattern), text, m)
  }

  lemma StepMeaning(p: seq<Token>, text: seq<char>)
    requires Terminated(p)
    ensures p[0].UNUSED? ==> PatternMatches(p, text)
    ensures !p[0].UNUSED? ==> |p| > 1 && Terminated(p[1..]) && (IsRepeat(p[1]) ==> Terminated(p[2..]))
    ensures Last(p) ==> (PatternMatches(p, text) <==> text == [])
    ensures IsAtom(p[0]) && IsRepeat(p[1]) ==>
      (PatternMatches(p, text) <==> Somewhere(p[0], p[1], p[2..], text))
    ensures IsAtom(p[0]) && !IsRepeat(p[1]) && !Last(p) ==>
      (PatternMatches(p, text) <==> text != [] && MatchOne(p[0], text[0]) && PatternMatches(p[1..], text[1..]))
  {
    if !p[0].UNUSED? { Shorter(p); }
    if IsAtom(p[0]) && !Last(p) {
      var rest := if IsRepeat(p[1]) then p[2..] else p[1..];
      var item := Item(p[0], if IsRepeat(p[1]) then p[1] else UNUSED);
      FirstItem(item, Items(rest), Anchored(rest), text);
      if !IsRepeat(p[1]) {
        OneChar(item, Items(rest), Anchored(rest), text);
      }
    } else {
      NoItems(Anchored(p), text);
    }
  }

  lemma OneChar(item: Item, items: seq<Item>, anchored: bool, text: seq<char>)
    requires item.rep == UNUSED && IsAtom(item.atom)
    ensures (exists m: nat :: m <= |text| && FirstThenRest(item, items, anchored, text, m)) <==>
            text != [] && MatchOne(item.atom, text[0]) && Matches(items, anchored, text[1..])
  {
    if m: nat :| m <= |text| && FirstThenRest(item, items, anchored, text, m) {
      assert m == 1 && text[..m][0] == text[0];
    }
    if text != [] && MatchOne(item.atom, text[0]) && Matches(items, anchored, text[1..]) {
      assert FirstThenRest(item, items, anchored, text, 1);
    }
  }

  /** matchquestion */
  method MatchQuestion(p: Token, ghost mark: Token, pattern: seq<Token>, text: seq<char>) returns (b: bool)
    requires p.UNUSED? || (mark.QUESTIONMARK? && Terminated(pattern))
    ensures b == (p.UNUSED? || Somewhere(p, mark, pattern, text))
    decreases |pattern|, 2
  {
    if p.UNUSED? {
      return true;
    }
    ghost var item := Item(p, mark);
    assert text[0..] == text;
    b := MatchPattern(pattern, text);
    if b {
      assert FirstThenRest(item, Items(pattern), Anchored(pattern), text, 0);
      return;
    }
    if text != [] && MatchOne(p, text[0]) {
      b := MatchPattern(pattern, text[1..]);
      if b {
        assert FirstThenRest(item, Items(pattern), Anchored(pattern), text, 1);
        return;
      }
    }
    forall m: nat | m <= |text| ensures !FirstThenRest(item, Items(pattern), Anchored(pattern), text, m) {
      if m == 1 { assert text[..m][0] == text[0]; }
    }
  }

  /** matchstar */
  method MatchStar(p: Token, ghost mark: Token, pattern: seq<Token>, text: seq<char>) returns (b: bool)
    requires Terminated(pattern) && IsAtom(p) && mark.STAR?
    ensures b == Somewhere(p, mark, pattern, text)
    decreases |pattern|, 2
  {
    var top := RunLength(p, text);
    var t: int := top;
    while t >= 0
      invariant -1 <= t <= top
      invariant forall m: nat :: t < m <= top ==> !PatternMatches(pattern, text[m..])
    {
      b := MatchPattern(pattern, text[t..]);
      if b {
        assert FirstThenRest(Item(p, mark), Items(pattern), Anchored(pattern), text, t);
        return true;
      }
      t := t - 1;
    }
    b := false;
    forall m: nat | m <= |text|
      ensures !FirstThenRest(Item(p, mark), Items(pattern), Anchored(pattern), text, m)
    {
      if m > top { assert text[..m][top] == text[top]; }
    }
  }

  /** matchplus */
  method MatchPlus(p: Token, ghost mark: Token, pattern: seq<Token>, text: seq<char>) returns (b: bool)
    requires Terminated(pattern) && IsAtom(p) && mark.PLUS?
    ensures b == Somewhere(p, mark, pattern, text)
    decreases |pattern|, 2
  {
    var top := RunLength(p, text);
    var t := top;
    while t > 0
      invariant 0 <= t <= top
      invariant forall m: nat :: t < m <= top ==> !PatternMatches(pattern, text[m..])
    {
      b := MatchPattern(pattern, text[t..]);
      if b {
        assert FirstThenRest(Item(p, mark), Items(pattern), Anchored(pattern), text, t);
        return true;
      }
      t := t - 1;
    }
    b := false;
    forall m: nat | m <= |text|
      ensures !FirstThenRest(Item(p, mark), Items(pattern), Anchored(pattern), text, m)
    {
      if m > top { assert text[..m][top] == text[top]; }
    }
  }

  /** The forward loop of matchstar and matchplus. */
  method RunLength(p: Token, text: seq<char>) returns (t: nat)
    requires IsAtom(p)
    ensures t <= |text| && forall i :: 0 <= i < t ==> MatchOne(p, text[i])
    ensures t < |text| ==> !MatchOne(p, text[t])
  {
    t := 0;
    while t < |text| && MatchOne(p, text[t])
      invariant t <= |text| && forall i :: 0 <= i < t ==> MatchOne(p, text[i])
    {
      t := t + 1;
    }
  }

  /** re_matchp: the first place where the pattern matches, but not the end of the text. */
  method ReMatchP(pattern: seq<Token>, text0: seq<char>) returns (idx: int)
    requires Terminated(pattern)
    ensures pattern[0].BEGIN? ==> Terminated(pattern[1..])
    ensures pattern[0].BEGIN? ==> idx == if PatternMatches(pattern[1..], text0) then 0 else -1
    ensures !pattern[0].BEGIN? ==> -1 <= idx < |text0| || idx == -1
    ensures !pattern[0].BEGIN? && idx >= 0 ==> PatternMatches(pattern, text0[idx..])
    ensures !pattern[0].BEGIN? ==>
      forall k :: 0 <= k < (if idx >= 0 then idx else |text0|) ==> !PatternMatches(pattern, text0[k..])
  {
    if pattern[0].BEGIN? {
      Shorter(pattern);
      var b := MatchPattern(pattern[1..], text0);
      return if b then 0 else -1;
    }
    var text := text0;
    idx := -1;
    while true
      invariant -1 <= idx < |text0| && text == text0[idx + 1..]
      invariant forall k :: 0 <= k <= idx ==> !PatternMatches(pattern, text0[k..])
      decreases |text|
    {
      idx := idx + 1;
      var b := MatchPattern(pattern, text);
      if b {
        if text == [] {
          return -1;
        }
        return idx;
      }
      if text == [] {
        return -1;
      }
      text := text[1..];
    }
  }
}

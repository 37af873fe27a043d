/**
  Dot-command lines of src/sqlite3/shell.c as a user may write them: each argument in double quotes with escapes, in
  single quotes, or bare.
*/
module CommandLines {
  import opened Common
  import opened CStrings

  // ----- What the escapes are -----

  /** Exactly which bytes the shell escapes when it prints a string, and with how many characters. */
  lemma WhatIsEscaped(c: Byte)
    ensures EscapedByte(c) == [c] <==> 32 <= c <= 126 && c != 34 && c != 92
    ensures |EscapedByte(c)| == 2 <==> c in {9, 10, 13, 34, 92}
    ensures EscapedByte(c) != [c] ==> EscapedByte(c)[0] == 92
    ensures |EscapedByte(c)| == 2 ==>
      EscapedByte(c)[1] == if c == 9 then 116 else if c == 10 then 110 else if c == 13 then 114 else c
    ensures |EscapedByte(c)| > 2 ==> |EscapedByte(c)| == 4
    ensures |EscapedByte(c)| == 4 ==> OctalDigits(EscapedByte(c)[1..]) && OctalValue(EscapedByte(c)[1..]) == c
  {
    if |EscapedByte(c)| == 4 {
      OctalDigitsOf(c);
    }
  }

  lemma OctalDigitsOf(c: Byte)
    ensures var digits := [ZERO + c / 64, ZERO + c / 8 % 8, ZERO + c % 8];
      OctalDigits(digits) && OctalValue(digits) == c
  {
    hide OctalValue;
    ThreeDigits([ZERO + c / 64, ZERO + c / 8 % 8, ZERO + c % 8]);
    assert c == c / 64 * 64 + c / 8 % 8 * 8 + c % 8;
  }

  predicate OctalDigits(digits: seq<Byte>) {
    forall i :: 0 <= i < |digits| ==> 48 <= digits[i] <= 55
  }

  /** The number that octal digits stand for. */
  function OctalValue(digits: seq<Byte>): (v: nat)
    requires OctalDigits(digits)
  {
    if digits == [] then 0
    else
      var d: int := digits[|digits| - 1];
      8 * OctalValue(digits[..|digits| - 1]) + (d - 48)
  }

  lemma ThreeDigits(digits: seq<Byte>)
    requires |digits| == 3 && OctalDigits(digits)
    ensures var a: int, b: int, c: int := digits[0], digits[1], digits[2];
      OctalValue(digits) == 64 * (a - 48) + 8 * (b - 48) + (c - 48)
  {
    TwoDigits(digits[..2]);
  }

  lemma TwoDigits(digits: seq<Byte>)
    requires |digits| == 2 && OctalDigits(digits)
    ensures var a: int, b: int := digits[0], digits[1]; OctalValue(digits) == 8 * (a - 48) + (b - 48)
  {
    assert digits[..1][..0] == [];
    assert OctalValue(digits[..0]) == 0;
  }

  lemma OneDigit(digits: seq<Byte>)
    requires |digits| == 1 && OctalDigits(digits)
    ensures OctalValue(digits) == (digits[0] as int) - 48
  {
    assert OctalValue(digits[..0]) == 0;
  }

  /** An octal escape is as long as it can be, up to three digits, and stands for its value as a char. */
  lemma OctalEscape(digits: seq<Byte>, tail: seq<Byte>)
    requires 1 <= |digits| <= 3 && OctalDigits(digits)
    requires |digits| < 3 && tail != [] ==> !(48 <= tail[0] <= 55)
    ensures Escape([BACKSLASH] + digits + tail) == (OctalValue(digits) % 256, 1 + |digits|)
  {
    var s := [BACKSLASH] + digits + tail;
    assert s[1] == digits[0];
    OneDigit(digits[..1]);
    hide OctalValue;
    if |digits| == 1 {
      assert digits[..1] == digits;
      assert |s| > 2 ==> s[2] == tail[0];
    } else if |digits| == 2 {
      TwoDigits(digits);
      assert s[2] == digits[1] && (|s| > 3 ==> s[3] == tail[0]);
    } else {
      ThreeDigits(digits);
      assert s[2] == digits[1] && s[3] == digits[2];
    }
  }

  /** Any other escape: n, t and r stand for LF, TAB and CR, and every other character for itself. */
  lemma LetterEscape(c: Byte, tail: seq<Byte>)
    requires !(48 <= c <= 55)
    ensures Escape([BACKSLASH, c] + tail)
         == (if c == 110 then 10 else if c == 116 then 9 else if c == 114 then 13 else c, 2)
  {
  }

  // ----- Lines -----

  datatype Style = DoubleQuoted | SingleQuoted | Bare

  /** An argument and the white space behind it. */
  datatype Argument = Argument(text: seq<Byte>, style: Style, gap: seq<Byte>)

  /** White space: a blank, or one of the bytes from TAB to CR. */
  predicate White(c: Byte) {
    c == 32 || 9 <= c <= 13
  }

  predicate AllWhite(s: seq<Byte>) {
    forall i :: 0 <= i < |s| ==> White(s[i])
  }

  /** Whether the text can be written in this style. */
  predicate Fits(text: seq<Byte>, style: Style) {
    match style
    case DoubleQuoted => true
    case SingleQuoted => APOSTROPHE !in text
    case Bare =>
      && text != [] && text[0] !in {QUOTE, APOSTROPHE} && BACKSLASH !in text
      && forall i :: 0 <= i < |text| ==> !White(text[i])
  }

  function Written(text: seq<Byte>, style: Style): seq<Byte> {
    match style
    case DoubleQuoted => Quoted(text)
    case SingleQuoted => [APOSTROPHE] + text + [APOSTROPHE]
    case Bare => text
  }

  function Line(args: seq<Argument>): seq<Byte> {
    if args == [] then [] else Written(args[0].text, args[0].style) + args[0].gap + Line(args[1..])
  }

  /** Each argument can be written as it is, and only the last one may be bare without white space behind it. */
  predicate Writable(args: seq<Argument>) {
    && (forall k :: 0 <= k < |args| ==> AllWhite(args[k].gap) && Fits(args[k].text, args[k].style))
    && (forall k :: 0 <= k < |args| - 1 && args[k].style == Bare ==> args[k].gap != [])
  }

  function Texts(args: seq<Argument>): (texts: seq<seq<Byte>>)
    ensures |texts| == |args|
  {
    if args == [] then [] else [args[0].text] + Texts(args[1..])
  }

  lemma {:induction false} ApostropheEnds(text: seq<Byte>, tail: seq<Byte>)
    requires APOSTROPHE !in text
    ensures QuotedLength(text + [APOSTROPHE] + tail, APOSTROPHE) == |text|
  {
    if text == [] {
      assert text + [APOSTROPHE] + tail == [APOSTROPHE] + tail;
    } else {
      assert (text + [APOSTROPHE] + tail)[1..] == text[1..] + [APOSTROPHE] + tail;
      ApostropheEnds(text[1..], tail);
    }
  }

  lemma {:induction false} WordRuns(word: seq<Byte>, tail: seq<Byte>)
    requires forall i :: 0 <= i < |word| ==> !White(word[i])
    requires tail != [] ==> White(tail[0])
    ensures WordLength(word + tail) == |word|
  {
    if word == [] {
      assert word + tail == tail;
    } else {
      assert (word + tail)[1..] == word[1..] + tail;
      WordRuns(word[1..], tail);
    }
  }

  /** What is left of the line after an argument: a bare one takes the byte that ends it along. */
  function Behind(style: Style, tail: seq<Byte>): seq<Byte> {
    if style == Bare && tail != [] then tail[1..] else tail
  }

  lemma SingleQuotedToken(text: seq<Byte>, tail: seq<Byte>)
    requires APOSTROPHE !in text
    ensures FirstToken([APOSTROPHE] + text + [APOSTROPHE] + tail) == Token(text, false, 1, tail)
  {
    var line := [APOSTROPHE] + text + [APOSTROPHE] + tail;
    var body := line[1..];
    assert body == text + [APOSTROPHE] + tail;
    ApostropheEnds(text, tail);
    assert body[..|text|] == text && body[|text| + 1..] == tail;
  }

  lemma BareToken(text: seq<Byte>, tail: seq<Byte>)
    requires Fits(text, Bare) && (tail != [] ==> White(tail[0]))
    ensures FirstToken(text + tail) == Token(text, true, 0, Behind(Bare, tail))
  {
    WordRuns(text, tail);
    var line := text + tail;
    assert line[..|text|] == text && line[0] == text[0];
    assert |text| < |line| ==> line[|text| + 1..] == tail[1..];
  }

  /** The first token of what an argument is written as. */
  lemma FirstWritten(text: seq<Byte>, style: Style, tail: seq<Byte>)
    requires Fits(text, style) && (style == Bare && tail != [] ==> White(tail[0]))
    ensures var line := Written(text, style) + tail;
      && line != [] && !White(line[0])
      && var t := FirstToken(line);
         && t.rest == Behind(style, tail)
         && (if t.escapes then Resolvable(t.raw) && Resolve(t.raw) == text else t.raw == text)
  {
    hide FirstToken, Resolve, Resolvable, Escaped, Behind;
    match style
    case DoubleQuoted =>
      FirstQuotedToken(text, tail);
      ResolveEscaped(text);
      assert Behind(style, tail) == tail by { NotBare(style, tail); }
    case SingleQuoted =>
      SingleQuotedToken(text, tail);
      NotBare(style, tail);
    case Bare =>
      BareToken(text, tail);
      ResolvePlain(text);
  }

  lemma NotBare(style: Style, tail: seq<Byte>)
    requires style != Bare
    ensures Behind(style, tail) == tail
  {
  }

  lemma WritableFirst(args: seq<Argument>)
    requires args != [] && Writable(args)
    ensures AllWhite(args[0].gap) && Fits(args[0].text, args[0].style) && Writable(args[1..])
    ensures args[0].style == Bare && args[0].gap == [] ==> args[1..] == []
  {
    var more := args[1..];
    assert forall k :: 0 <= k < |more| ==> more[k] == args[k + 1];
  }

  /** The white space left behind an argument. */
  lemma GapBehind(style: Style, gap: seq<Byte>, line: seq<Byte>)
    requires AllWhite(gap) && (style == Bare && gap == [] ==> line == [])
    ensures var left := if style == Bare && gap != [] then gap[1..] else gap;
      AllWhite(left) && Behind(style, gap + line) == left + line
    ensures style == Bare && gap + line != [] ==> White((gap + line)[0])
  {
    if style == Bare && gap != [] {
      assert (gap + line)[1..] == gap[1..] + line;
    } else {
      assert style == Bare ==> gap + line == [];
    }
  }

  lemma SkipWhite(gap: seq<Byte>, s: seq<Byte>)
    requires AllWhite(gap) && (s != [] ==> !White(s[0]))
    ensures SkipSpaces(gap + s) == s
  {
    forall i | 0 <= i < |gap| ensures IsSpace(gap[i]) {
    }
    SkipGap(gap, s);
  }

  lemma TokensStep(line: seq<Byte>, s: seq<Byte>, room: nat, text: seq<Byte>, t: Token)
    requires s == SkipSpaces(line) && room > 0 && s != [] && t == FirstToken(s)
    requires if t.escapes then Resolvable(t.raw) && Resolve(t.raw) == text else t.raw == text
    ensures Tokenizable(line, room) <==> Tokenizable(t.rest, room - 1)
    ensures Tokenizable(line, room) ==> Tokens(line, room) == [text] + Tokens(t.rest, room - 1)
  {
    hide FirstToken, SkipSpaces, Resolvable, Resolve;
  }

  lemma NoTokens(line: seq<Byte>, room: nat)
    requires room == 0 || SkipSpaces(line) == []
    ensures Tokenizable(line, room) && Tokens(line, room) == []
  {
  }

  /** The texts of the first arguments. */
  function FirstTexts(args: seq<Argument>, room: nat): seq<seq<Byte>> {
    Texts(args)[..if |args| < room then |args| else room]
  }

  lemma FirstTextsStep(args: seq<Argument>, room: nat)
    ensures room == 0 || args == [] ==> FirstTexts(args, room) == []
    ensures room > 0 && args != [] ==> FirstTexts(args, room) == [args[0].text] + FirstTexts(args[1..], room - 1)
  {
  }

  /**
    A line of arguments in any mixture of the three styles, with any white space around them, is split into exactly
    their texts, as far as there is room.
  */
  lemma {:induction false} LineTokenizes(lead: seq<Byte>, args: seq<Argument>, room: nat)
    requires AllWhite(lead) && Writable(args)
    ensures Tokenizable(lead + Line(args), room) && Tokens(lead + Line(args), room) == FirstTexts(args, room)
    decreases room
  {
    hide FirstToken, SkipSpaces, Resolve, Resolvable, Behind, FirstTexts, Writable, AllWhite, Fits, Tokens, Tokenizable;
    hide Written, White;
    FirstTextsStep(args, room);
    if args == [] {
      SkipWhite(lead, []);
      NoTokens(lead + Line(args), room);
    } else if room == 0 {
      NoTokens(lead + Line(args), room);
    } else {
      var first, more := args[0], args[1..];
      WritableFirst(args);
      var tail := first.gap + Line(more);
      GapBehind(first.style, first.gap, Line(more));
      FirstWritten(first.text, first.style, tail);
      var s := Written(first.text, first.style) + tail;
      assert lead + Line(args) == lead + s;
      SkipWhite(lead, s);
      TokensStep(lead + s, s, room, first.text, FirstToken(s));
      LineTokenizes(if first.style == Bare && first.gap != [] then first.gap[1..] else first.gap, more, room - 1);
    }
  }
}

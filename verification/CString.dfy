/**
  C string literals as the SQLite shell prints them (output_c_string) and dot-command lines as it splits and
  unescapes them (do_meta_command, resolve_backslashes), all in src/sqlite3/shell.c.
*/
module CStrings {
  import opened Common

  const ZERO: Byte := 48
  const LOWER_N: Byte := 110
  const LOWER_R: Byte := 114
  const LOWER_T: Byte := 116

  const MAX_ARGS: nat := 50

  // ----- Printing -----

  /** isprint in the C locale */
  predicate IsPrint(c: Byte) {
    32 <= c <= 126
  }

  function EscapedByte(c: Byte): (e: seq<Byte>)
    ensures e != []
  {
    if c == BACKSLASH then [BACKSLASH, BACKSLASH]
    else if c == QUOTE then [BACKSLASH, QUOTE]
    else if c == TAB then [BACKSLASH, LOWER_T]
    else if c == LF then [BACKSLASH, LOWER_N]
    else if c == CR then [BACKSLASH, LOWER_R]
    else if !IsPrint(c) then [BACKSLASH, ZERO + c / 64, ZERO + c / 8 % 8, ZERO + c % 8]
    else [c]
  }

  function Escaped(s: seq<Byte>): seq<Byte> {
    if s == [] then [] else EscapedByte(s[0]) + Escaped(s[1..])
  }

  function Quoted(s: seq<Byte>): seq<Byte> {
    [QUOTE] + Escaped(s) + [QUOTE]
  }

  lemma {:induction false} EscapedAppend(s: seq<Byte>, c: Byte)
    ensures Escaped(s + [c]) == Escaped(s) + EscapedByte(c)
  {
    if s == [] {
      assert Escaped([c][1..]) == [];
    } else {
      assert (s + [c])[1..] == s[1..] + [c];
      EscapedAppend(s[1..], c);
    }
  }

  method OutputByte(before: seq<Byte>, c: Byte) returns (out: seq<Byte>)
    ensures out == before + EscapedByte(c)
  {
    out := before;
    if c == BACKSLASH {
      out := out + [c];
      out := out + [c];
    } else if c == QUOTE {
      out := out + [BACKSLASH];
      out := out + [QUOTE];
    } else if c == TAB {
      out := out + [BACKSLASH];
      out := out + [LOWER_T];
    } else if c == LF {
      out := out + [BACKSLASH];
      out := out + [LOWER_N];
    } else if c == CR {
      out := out + [BACKSLASH];
      out := out + [LOWER_R];
    } else if !IsPrint(c) {
      out := out + [BACKSLASH, ZERO + c / 64, ZERO + c / 8 % 8, ZERO + c % 8];
    } else {
      out := out + [c];
    }
  }

  method OutputCString(z: Text) returns (out: seq<Byte>)
    ensures out == Quoted(z)
  {
    hide EscapedByte;
    out := [QUOTE];
    for i := 0 to |z|
      invariant out == [QUOTE] + Escaped(z[..i])
    {
      assert z[..i + 1] == z[..i] + [z[i]];
      EscapedAppend(z[..i], z[i]);
      out := OutputByte(out, z[i]);
    }
    assert z[..|z|] == z;
    out := out + [QUOTE];
  }

  /** What is printed fits on one line of printable characters. */
  lemma {:induction false} EscapedIsPrintable(s: seq<Byte>)
    ensures forall i :: 0 <= i < |Escaped(s)| ==> IsPrint(Escaped(s)[i])
  {
    if s != [] {
      EscapedIsPrintable(s[1..]);
    }
  }

  // ----- Unescaping -----

  predicate IsOctal(c: Byte) {
    ZERO <= c < ZERO + 8
  }

  /** The escape at the front of s: the byte it stands for and how long it is; a char wraps modulo 256. */
  function Escape(s: seq<Byte>): (r: (Byte, nat))
    requires |s| >= 2
    ensures 2 <= r.1 <= |s|
  {
    var c := s[1];
    if c == LOWER_N then (LF, 2)
    else if c == LOWER_T then (TAB, 2)
    else if c == LOWER_R then (CR, 2)
    else if IsOctal(c) then
      if |s| > 2 && IsOctal(s[2]) then
        if |s| > 3 && IsOctal(s[3]) then (((c - ZERO) * 64 + (s[2] - ZERO) * 8 + (s[3] - ZERO)) % 256, 4)
        else ((c - ZERO) * 8 + (s[2] - ZERO), 3)
      else (c - ZERO, 2)
    else (c, 2)
  }

  /** No backslash stands alone at the end: there the unescaper would run past the string. */
  predicate Resolvable(s: seq<Byte>) {
    if s == [] then true
    else if s[0] != BACKSLASH then Resolvable(s[1..])
    else |s| >= 2 && Resolvable(s[Escape(s).1..])
  }

  function Resolve(s: seq<Byte>): (r: seq<Byte>)
    requires Resolvable(s)
    ensures |r| <= |s|
  {
    if s == [] then []
    else if s[0] != BACKSLASH then [s[0]] + Resolve(s[1..])
    else [Escape(s).0] + Resolve(s[Escape(s).1..])
  }

  lemma ResolveOctal(c: Byte, tail: seq<Byte>)
    ensures Escape([BACKSLASH, ZERO + c / 64, ZERO + c / 8 % 8, ZERO + c % 8] + tail) == (c, 4)
  {
    var s := [BACKSLASH, ZERO + c / 64, ZERO + c / 8 % 8, ZERO + c % 8] + tail;
    assert s[1] - ZERO == c / 64 && s[2] - ZERO == c / 8 % 8 && s[3] - ZERO == c % 8;
    assert c == c / 64 * 64 + c / 8 % 8 * 8 + c % 8;
  }

  lemma ResolveEscapedByte(c: Byte, tail: seq<Byte>)
    requires Resolvable(tail)
    ensures Resolvable(EscapedByte(c) + tail) && Resolve(EscapedByte(c) + tail) == [c] + Resolve(tail)
  {
    var e := EscapedByte(c);
    var s := e + tail;
    assert s[|e|..] == tail;
    if |e| == 4 {
      ResolveOctal(c, tail);
    }
    assert if |e| == 1 then s[0] == c != BACKSLASH else s[0] == BACKSLASH && Escape(s) == (c, |e|);
    hide EscapedByte, Escape;
  }

  /** Unescaping what was escaped gives the string back, whatever digits follow an octal escape. */
  lemma {:induction false} ResolveEscaped(s: seq<Byte>)
    ensures Resolvable(Escaped(s)) && Resolve(Escaped(s)) == s
  {
    if s != [] {
      ResolveEscaped(s[1..]);
      ResolveEscapedByte(s[0], Escaped(s[1..]));
    }
  }

  // ----- Splitting a line -----

  /** isspace in the C locale */
  predicate IsSpace(c: Byte) {
    c == SPACE || TAB <= c <= CR
  }

  function SkipSpaces(s: seq<Byte>): (r: seq<Byte>)
    ensures |r| <= |s|
  {
    if s != [] && IsSpace(s[0]) then SkipSpaces(s[1..]) else s
  }

  lemma {:induction false} SkipSpacesLeavesEnd(s: seq<Byte>, r: seq<Byte>)
    requires r == SkipSpaces(s)
    ensures r == s[|s| - |r|..]
  {
    if s != [] && IsSpace(s[0]) {
      SkipSpacesLeavesEnd(s[1..], r);
    }
  }

  /** How far the closing delimiter, or else the end, is away. */
  function QuotedLength(s: seq<Byte>, delim: Byte): (n: nat)
    ensures n <= |s| && (n < |s| ==> s[n] == delim)
  {
    if s == [] || s[0] == delim then 0
    else if s[0] == BACKSLASH && delim == QUOTE && |s| > 1 then 2 + QuotedLength(s[2..], delim)
    else 1 + QuotedLength(s[1..], delim)
  }

  function WordLength(s: seq<Byte>): (n: nat)
    ensures n <= |s| && (n < |s| ==> IsSpace(s[n]))
  {
    if s == [] || IsSpace(s[0]) then 0 else 1 + WordLength(s[1..])
  }

  datatype Token = Token(raw: seq<Byte>, escapes: bool, skipped: nat, rest: seq<Byte>)

  /** The first token of a line that does not begin with a space, and what follows its terminator. */
  function FirstToken(s: seq<Byte>): (t: Token)
    requires s != []
    ensures |t.rest| < |s| && t.skipped <= 1 && t.skipped + |t.raw| <= |s|
  {
    if s[0] == APOSTROPHE || s[0] == QUOTE then
      var body := s[1..];
      var n := QuotedLength(body, s[0]);
      Token(body[..n], s[0] == QUOTE, 1, if n < |body| then body[n + 1..] else [])
    else
      var n := WordLength(s);
      Token(s[..n], true, 0, if n < |s| then s[n + 1..] else [])
  }

  predicate Tokenizable(line: seq<Byte>, room: nat)
    decreases room
  {
    var s := SkipSpaces(line);
    room > 0 && s != [] ==>
      var t := FirstToken(s);
      (t.escapes ==> Resolvable(t.raw)) && Tokenizable(t.rest, room - 1)
  }

  function Tokens(line: seq<Byte>, room: nat): (tokens: seq<seq<Byte>>)
    requires Tokenizable(line, room)
    ensures |tokens| <= room
    decreases room
  {
    var s := SkipSpaces(line);
    if room == 0 || s == [] then []
    else
      var t := FirstToken(s);
      [if t.escapes then Resolve(t.raw) else t.raw] + Tokens(t.rest, room - 1)
  }

  // ----- What is printed is split and unescaped back -----

  lemma PlainLength(c: Byte, tail: seq<Byte>)
    requires c !in {BACKSLASH, QUOTE}
    ensures QuotedLength([c] + tail, QUOTE) == 1 + QuotedLength(tail, QUOTE)
  {
    assert ([c] + tail)[1..] == tail;
  }

  lemma EscapeLength(c: Byte, tail: seq<Byte>)
    ensures QuotedLength([BACKSLASH, c] + tail, QUOTE) == 2 + QuotedLength(tail, QUOTE)
  {
    assert ([BACKSLASH, c] + tail)[2..] == tail;
  }

  lemma QuotedByteLength(c: Byte, tail: seq<Byte>)
    ensures QuotedLength(EscapedByte(c) + tail, QUOTE) == |EscapedByte(c)| + QuotedLength(tail, QUOTE)
  {
    hide QuotedLength;
    var e := EscapedByte(c);
    if |e| == 1 {
      PlainLength(c, tail);
    } else if |e| == 2 {
      EscapeLength(e[1], tail);
    } else {
      PlainLength(e[3], tail);
      PlainLength(e[2], [e[3]] + tail);
      EscapeLength(e[1], [e[2]] + ([e[3]] + tail));
      assert e + tail == [BACKSLASH, e[1]] + ([e[2]] + ([e[3]] + tail));
    }
  }

  lemma {:induction false} QuotedStringLength(s: seq<Byte>, tail: seq<Byte>)
    ensures QuotedLength(Escaped(s) + [QUOTE] + tail, QUOTE) == |Escaped(s)|
  {
    if s == [] {
      assert Escaped(s) + [QUOTE] + tail == [QUOTE] + tail;
    } else {
      var more := Escaped(s[1..]) + [QUOTE] + tail;
      QuotedStringLength(s[1..], tail);
      QuotedByteLength(s[0], more);
      assert Escaped(s) + [QUOTE] + tail == EscapedByte(s[0]) + more;
    }
  }

  lemma FirstQuotedToken(s: seq<Byte>, tail: seq<Byte>)
    ensures FirstToken(Quoted(s) + tail) == Token(Escaped(s), true, 1, tail)
  {
    var line := Quoted(s) + tail;
    var body := line[1..];
    assert body == Escaped(s) + [QUOTE] + tail;
    QuotedStringLength(s, tail);
    var n := |Escaped(s)|;
    assert body[..n] == Escaped(s) && body[n + 1..] == tail;
  }

  lemma {:induction false} SkipGap(gap: seq<Byte>, s: seq<Byte>)
    requires forall i :: 0 <= i < |gap| ==> IsSpace(gap[i])
    requires s != [] ==> !IsSpace(s[0])
    ensures SkipSpaces(gap + s) == s
  {
    if gap == [] {
      assert gap + s == s;
    } else {
      assert (gap + s)[1..] == gap[1..] + s;
      SkipGap(gap[1..], s);
    }
  }

  /** Printed strings, each after a gap of any white space or none. */
  function PrintedArgs(args: seq<(seq<Byte>, seq<Byte>)>): seq<Byte> {
    if args == [] then [] else args[0].0 + Quoted(args[0].1) + PrintedArgs(args[1..])
  }

  ghost predicate Gap(s: seq<Byte>) {
    forall i :: 0 <= i < |s| ==> IsSpace(s[i])
  }

  function Strings(args: seq<(seq<Byte>, seq<Byte>)>, most: nat): seq<seq<Byte>> {
    if args == [] || most == 0 then [] else [args[0].1] + Strings(args[1..], most - 1)
  }

  lemma {:induction false} PrintedArgsTokenize(args: seq<(seq<Byte>, seq<Byte>)>, room: nat)
    requires forall k :: 0 <= k < |args| ==> Gap(args[k].0)
    ensures Tokenizable(PrintedArgs(args), room) && Tokens(PrintedArgs(args), room) == Strings(args, room)
    decreases room
  {
    if args != [] && room > 0 {
      hide Escaped, FirstToken, Resolvable, Resolve;
      var (gap, s) := args[0];
      var rest := PrintedArgs(args[1..]);
      var line := PrintedArgs(args);
      assert line == gap + (Quoted(s) + rest);
      SkipGap(gap, Quoted(s) + rest);
      FirstQuotedToken(s, rest);
      ResolveEscaped(s);
      PrintedArgsTokenize(args[1..], room - 1);
    }
  }

  /** A bare command word: no white space, quotes or backslashes. */
  ghost predicate CommandWord(cmd: seq<Byte>) {
    cmd != [] && forall i :: 0 <= i < |cmd| ==> !IsSpace(cmd[i]) && cmd[i] !in {QUOTE, APOSTROPHE, BACKSLASH}
  }

  lemma {:induction false} ResolvePlain(s: seq<Byte>)
    requires forall i :: 0 <= i < |s| ==> s[i] != BACKSLASH
    ensures Resolvable(s) && Resolve(s) == s
  {
    if s != [] {
      ResolvePlain(s[1..]);
    }
  }

  lemma {:induction false} WordEnds(word: seq<Byte>, space: Byte, tail: seq<Byte>)
    requires forall i :: 0 <= i < |word| ==> !IsSpace(word[i])
    requires IsSpace(space)
    ensures WordLength(word + [space] + tail) == |word|
  {
    if word != [] {
      assert (word + [space] + tail)[1..] == word[1..] + [space] + tail;
      WordEnds(word[1..], space, tail);
    }
  }

  lemma CommandTokenizes(cmd: seq<Byte>, space: Byte, args: seq<(seq<Byte>, seq<Byte>)>, room: nat)
    requires CommandWord(cmd) && IsSpace(space) && room > 0
    requires forall k :: 0 <= k < |args| ==> Gap(args[k].0)
    ensures var line := cmd + [space] + PrintedArgs(args);
      Tokenizable(line, room) && Tokens(line, room) == [cmd] + Strings(args, room - 1)
  {
    hide PrintedArgs, Resolvable, Resolve, WordLength;
    var rest := PrintedArgs(args);
    var line := cmd + [space] + rest;
    assert SkipSpaces(line) == line;
    WordEnds(cmd, space, rest);
    assert line[..|cmd|] == cmd && line[|cmd| + 1..] == rest;
    ResolvePlain(cmd);
    PrintedArgsTokenize(args, room - 1);
  }

  /**
    A dot command followed by printed strings, each after white space or not, is split into the command word
    and exactly those strings, as far as the argument array reaches.
  */
  lemma DotCommandReadsBack(cmd: seq<Byte>, space: Byte, args: seq<(seq<Byte>, seq<Byte>)>)
    requires CommandWord(cmd) && IsSpace(space)
    requires forall k :: 0 <= k < |args| ==> Gap(args[k].0)
    ensures var line := cmd + [space] + PrintedArgs(args);
      Tokenizable(line, MAX_ARGS) && |Tokens(line, MAX_ARGS)| == 1 + (if |args| < 49 then |args| else 49)
    ensures var tokens := Tokens(cmd + [space] + PrintedArgs(args), MAX_ARGS);
      tokens[0] == cmd && forall k :: 1 <= k < |tokens| ==> tokens[k] == args[k - 1].1
  {
    hide Tokens, Tokenizable, Strings, PrintedArgs;
    CommandTokenizes(cmd, space, args, MAX_ARGS);
    StringsAreArgs(args, MAX_ARGS - 1);
  }

  lemma {:induction false} StringsAreArgs(args: seq<(seq<Byte>, seq<Byte>)>, most: nat)
    ensures |Strings(args, most)| == if |args| < most then |args| else most
    ensures forall k :: 0 <= k < |Strings(args, most)| ==> Strings(args, most)[k] == args[k].1
  {
    if args != [] && most > 0 {
      StringsAreArgs(args[1..], most - 1);
    }
  }
}

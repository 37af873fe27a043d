/**
  The tokenizer loop of do_meta_command and resolve_backslashes of src/sqlite3/shell.c, which work in place on
  the memory that holds the command line.

  The unescaper takes the character after a backslash whatever it is, also the NUL that ends its string, and goes on
  behind it.  So what it does is a matter of the memory from its argument on, and what a line is split into is too.
  For a line in which no unescaped token ends in a lone backslash that is the same as the tokens of module CStrings.
*/
module DotCommands {
  import opened Common
  import opened CStrings

  /** A C string at index p that ends at index e. */
  ghost predicate CStringAt(z: seq<Byte>, p: nat, e: nat) {
    p <= e < |z| && z[e] == 0 && forall k :: p <= k < e ==> z[k] != 0
  }

  /** The bytes t lie at index p and are followed by a NUL. */
  ghost predicate Holds(z: seq<Byte>, p: nat, t: seq<Byte>) {
    p + |t| < |z| && z[p..p + |t|] == t && z[p + |t|] == 0
  }

  // ----- Unescaping in memory -----

  /** A backslash has a character after it. */
  predicate HasByte(m: seq<Byte>) {
    m != [] && (m[0] == BACKSLASH ==> |m| >= 2)
  }

  /** The next byte that the unescaper writes, and how many it reads for that. */
  function NextByte(m: seq<Byte>): (r: (Byte, nat))
    requires HasByte(m)
    ensures 0 < r.1 <= |m|
  {
    if m[0] == BACKSLASH then Escape(m) else (m[0], 1)
  }

  /** The unescaper comes to a NUL that no backslash stands before. */
  predicate Bounded(m: seq<Byte>) {
    m != [] && (m[0] == 0 || (HasByte(m) && Bounded(m[NextByte(m).1..])))
  }

  /** What the unescaper writes before its final NUL. */
  function Unescaped(m: seq<Byte>): (r: seq<Byte>)
    requires Bounded(m)
    ensures |r| < |m|
  {
    if m[0] == 0 then [] else [NextByte(m).0] + Unescaped(m[NextByte(m).1..])
  }

  /** How many bytes it reads before it comes to that NUL. */
  function Reads(m: seq<Byte>): (n: nat)
    requires Bounded(m)
    ensures n < |m| && m[n] == 0
  {
    if m[0] == 0 then 0 else NextByte(m).1 + Reads(m[NextByte(m).1..])
  }

  /** The memory m with r and a NUL at index p. */
  function Stored(m: seq<Byte>, p: nat, r: seq<Byte>): seq<Byte>
    requires p + |r| < |m|
  {
    m[..p] + r + [0] + m[p + |r| + 1..]
  }

  /** The octal digits of an escape whose backslash stands at index p: at most three, modulo 256. */
  method ReadOctal(z: array<Byte>, p: nat) returns (c: Byte, i: nat)
    requires p + 1 < z.Length && IsOctal(z[p + 1]) && Escape(z[..][p..]).1 < z.Length - p
    ensures p < i < z.Length && (c, i + 1 - p) == Escape(z[..][p..])
  {
    ghost var m := z[..][p..];
    assert m[1] == z[p + 1] && m[2] == z[p + 2];
    i := p + 1;
    c := z[i] - ZERO;
    if IsOctal(z[i + 1]) {
      assert m[3] == z[p + 3];
      i := i + 1;
      c := (c * 8 + z[i] - ZERO) % 256;
      if IsOctal(z[i + 1]) {
        i := i + 1;
        c := (c * 8 + z[i] - ZERO) % 256;
      }
    }
  }

  /** The escape whose backslash stands at index p: its byte, and the index of its last character. */
  method ReadEscape(z: array<Byte>, p: nat) returns (c: Byte, i: nat)
    requires p < z.Length && z[p] == BACKSLASH && Bounded(z[..][p..])
    ensures p < i < z.Length && (c, i + 1 - p) == Escape(z[..][p..])
  {
    ghost var m := z[..][p..];
    EscapeInside(m);
    hide Bounded;
    assert m[1] == z[p + 1];
    i := p + 1;
    c := z[i];
    if c == LOWER_N {
      c := LF;
    } else if c == LOWER_T {
      c := TAB;
    } else if c == LOWER_R {
      c := CR;
    } else if c == BACKSLASH {
      c := BACKSLASH;
    } else if IsOctal(c) {
      c, i := ReadOctal(z, p);
    }
  }

  lemma EscapeInside(m: seq<Byte>)
    requires Bounded(m) && m[0] == BACKSLASH
    ensures |m| >= 2 && Escape(m).1 < |m|
  {
  }

  lemma BoundedStep(m: seq<Byte>)
    requires Bounded(m) && m[0] != 0
    ensures HasByte(m) && Bounded(m[NextByte(m).1..]) && NextByte(m).1 < |m|
  {
    hide NextByte, HasByte;
    var rest := m[NextByte(m).1..];
    assert Bounded(rest);
    assert rest != [];
  }

  /** One round of unescaping. */
  lemma UnescapedStep(m: seq<Byte>)
    requires Bounded(m) && m[0] != 0
    ensures HasByte(m) && NextByte(m).1 < |m| && Bounded(m[NextByte(m).1..])
    ensures Unescaped(m) == [NextByte(m).0] + Unescaped(m[NextByte(m).1..])
  {
    hide NextByte, Bounded, HasByte;
    BoundedStep(m);
  }

  lemma UnescapedEnd(m: seq<Byte>)
    requires Bounded(m) && m[0] == 0
    ensures Unescaped(m) == []
  {
  }

  /**
    The loop of resolve_backslashes: what is done lies at index p, from index i on nothing has changed, and what
    is left there gives the rest.
  */
  ghost predicate Unescaping(a: seq<Byte>, line: seq<Byte>, p: nat, done: seq<Byte>, i: nat) {
    && p + |done| <= i < |line| && Bounded(line[p..]) && Bounded(line[i..])
    && a == line[..p] + done + line[p + |done|..]
    && Unescaped(line[p..]) == done + Unescaped(line[i..])
  }

  lemma UnescapingStep(a: seq<Byte>, b: seq<Byte>, line: seq<Byte>, p: nat, done: seq<Byte>, i: nat, c: Byte, n: nat)
    requires Unescaping(a, line, p, done, i) && line[i] != 0 && 0 < n <= |line| - i
    requires b == a[p + |done| := c] && Bounded(line[i + n..]) && i + n < |line|
    requires Unescaped(line[i..]) == [c] + Unescaped(line[i + n..])
    ensures Unescaping(b, line, p, done + [c], i + n)
  {
    hide Unescaped, Bounded;
    assert b == line[..p] + (done + [c]) + line[p + |done + [c]|..];
    assert done + ([c] + Unescaped(line[i + n..])) == done + [c] + Unescaped(line[i + n..]);
  }

  lemma UnescapingRest(a: seq<Byte>, line: seq<Byte>, p: nat, done: seq<Byte>, i: nat)
    requires Unescaping(a, line, p, done, i)
    ensures i < |a| == |line| && a[i..] == line[i..] && a[i] == line[i] && Bounded(a[i..]) && p + |done| <= i
  {
    hide Unescaped, Bounded;
    assert forall k :: i <= k < |line| ==> a[k] == line[k];
  }

  /** One round of the loop: the next character or escape of what is left, written at index j. */
  method UnescapeOne(z: array<Byte>, j: nat, i: nat) returns (next: nat, ghost c: Byte)
    requires j <= i < z.Length && z[i] != 0 && Bounded(z[..][i..])
    modifies z
    ensures i < next < z.Length && z[..] == old(z[..])[j := c] && Bounded(old(z[..])[next..])
    ensures Unescaped(old(z[..])[i..]) == [c] + Unescaped(old(z[..])[next..])
  {
    hide Escape, IsOctal, Unescaped, Bounded;
    ghost var m := z[..][i..];
    UnescapedStep(m);
    assert m[0] == z[i];
    next := i;
    var b := z[next];
    if b == BACKSLASH {
      EscapeInside(m);
      b, next := ReadEscape(z, next);
    }
    assert m[next + 1 - i..] == z[..][next + 1..];
    z[j] := b;
    next, c := next + 1, b;
  }

  /** resolve_backslashes on the string at index p, which may run over the end of that string. */
  method ResolveBackslashes(z: array<Byte>, p: nat)
    requires p < z.Length && Bounded(z[..][p..])
    modifies z
    ensures z[..] == Stored(old(z[..]), p, Unescaped(old(z[..])[p..]))
  {
    hide Unescaped, Bounded, Unescaping, Stored;
    ghost var line := z[..];
    ghost var done := [];
    var i, j := p, p;
    UnescapingStart(line, p);
    UnescapingRest(line, line, p, done, i);
    while z[i] != 0
      invariant j == p + |done| <= i < z.Length && Unescaping(z[..], line, p, done, i)
      decreases z.Length - i
    {
      ghost var before, start := z[..], i;
      ghost var c;
      UnescapingRest(before, line, p, done, i);
      i, c := UnescapeOne(z, j, i);
      assert before[i..] == line[i..] by {
        assert before[start..][i - start..] == line[start..][i - start..];
      }
      UnescapingStep(before, z[..], line, p, done, start, c, i - start);
      j, done := j + 1, done + [c];
    }
    ghost var before := z[..];
    z[j] := 0;
    UnescapingEnd(before, z[..], line, p, done, i);
  }

  lemma UnescapingStart(line: seq<Byte>, p: nat)
    requires p < |line| && Bounded(line[p..])
    ensures Unescaping(line, line, p, [], p)
  {
    hide Unescaped, Bounded;
    assert line == line[..p] + [] + line[p..];
    assert [] + Unescaped(line[p..]) == Unescaped(line[p..]);
  }

  lemma UnescapingEnd(a: seq<Byte>, b: seq<Byte>, line: seq<Byte>, p: nat, done: seq<Byte>, i: nat)
    requires Unescaping(a, line, p, done, i) && i < |a| && a[i] == 0 && b == a[p + |done| := 0]
    ensures b == Stored(line, p, Unescaped(line[p..]))
  {
    hide Bounded, Unescaped;
    UnescapingRest(a, line, p, done, i);
    assert line[i..][0] == 0;
    UnescapedEnd(line[i..]);
    assert done + [] == done;
  }

  // ----- Strings and escapes within their own bounds -----

  lemma EscapeOverEnd(m: seq<Byte>, n: nat)
    requires HasByte(m) && CStringAt(m, 0, n) && m[0] != 0
    ensures NextByte(m).1 <= n || NextByte(m).0 == 0
  {
  }

  lemma BoundedBack(m: seq<Byte>)
    requires HasByte(m) && Bounded(m[NextByte(m).1..])
    ensures Bounded(m)
  {
    hide NextByte, HasByte;
  }

  lemma ResolveStep(s: seq<Byte>)
    requires s != [] && Resolvable(s)
    ensures HasByte(s) && Resolvable(s[NextByte(s).1..])
    ensures Resolve(s) == [NextByte(s).0] + Resolve(s[NextByte(s).1..])
  {
    hide Escape;
  }

  /** An octal escape ends at the latest before a byte that is no octal digit. */
  lemma NextByteBefore(s: seq<Byte>, more: seq<Byte>)
    requires HasByte(s) && (more == [] || !IsOctal(more[0]))
    ensures HasByte(s + more) && NextByte(s + more) == NextByte(s)
  {
  }

  lemma ReadsStep(m: seq<Byte>)
    requires Bounded(m) && m[0] != 0
    ensures HasByte(m) && Bounded(m[NextByte(m).1..]) && Reads(m) == NextByte(m).1 + Reads(m[NextByte(m).1..])
  {
    hide NextByte, HasByte, Bounded;
    BoundedStep(m);
  }

  lemma {:induction false} BoundedBefore(s: seq<Byte>, more: seq<Byte>)
    requires Resolvable(s) && 0 !in s && more != [] && !IsOctal(more[0])
    ensures Bounded(s + more) <==> Bounded(more)
  {
    hide NextByte, HasByte, Bounded, Resolvable, Resolve, IsOctal;
    var m := s + more;
    if s == [] {
      assert m == more;
    } else {
      ResolveStep(s);
      NextByteBefore(s, more);
      var n := NextByte(s).1;
      assert m[n..] == s[n..] + more;
      BoundedBefore(s[n..], more);
      if Bounded(more) {
        BoundedBack(m);
      } else if Bounded(m) {
        BoundedStep(m);
      }
    }
  }

  /** Up to a place that is not inside an escape the unescaper does what Resolve says, and then goes on from there. */
  lemma {:induction false} UnescapedBefore(s: seq<Byte>, more: seq<Byte>)
    requires Resolvable(s) && 0 !in s && more != [] && !IsOctal(more[0]) && Bounded(more)
    ensures Bounded(s + more)
    ensures Unescaped(s + more) == Resolve(s) + Unescaped(more) && Reads(s + more) == |s| + Reads(more)
  {
    hide NextByte, HasByte, Bounded, Unescaped, Reads, Resolvable, Resolve, IsOctal;
    var m := s + more;
    BoundedBefore(s, more);
    if s == [] {
      NothingToUnescape([0]);
      assert m == more && [] + Unescaped(more) == Unescaped(more);
    } else {
      ResolveStep(s);
      NextByteBefore(s, more);
      var (c, n) := NextByte(s);
      assert m[n..] == s[n..] + more;
      UnescapedBefore(s[n..], more);
      UnescapedStep(m);
      ReadsStep(m);
      assert [c] + (Resolve(s[n..]) + Unescaped(more)) == [c] + Resolve(s[n..]) + Unescaped(more);
    }
  }

  lemma NothingToUnescape(m: seq<Byte>)
    requires m != [] && m[0] == 0
    ensures Bounded(m) && Unescaped(m) == [] && Resolvable([]) && Resolve([]) == []
  {
  }

  /** Without a lone backslash the unescaper stays within its string. */
  lemma UnescapedWithin(s: seq<Byte>, more: seq<Byte>)
    requires Resolvable(s) && 0 !in s && more != [] && more[0] == 0
    ensures Bounded(s + more) && Unescaped(s + more) == Resolve(s) && Reads(s + more) == |s|
  {
    hide Resolvable, Resolve, NextByte, HasByte;
    UnescapedBefore(s, more);
    UnescapedEnd(more);
    assert Resolve(s) + [] == Resolve(s);
  }

  /** What is not resolvable is so because of the backslash at its end. */
  lemma {:induction false} LoneAtEnd(s: seq<Byte>) returns (w: seq<Byte>)
    requires !Resolvable(s)
    ensures s == w + [BACKSLASH] && Resolvable(w)
  {
    if !HasByte(s) {
      w := [];
      assert s == w + [BACKSLASH];
    } else {
      var n := NextByte(s).1;
      var v := LoneAtEnd(s[n..]);
      w := s[..n] + v;
      assert s == s[..n] + s[n..];
      assert s == w + [BACKSLASH] && w[n..] == v;
      NextByteBefore(w, [BACKSLASH]);
    }
  }

  lemma NulAfterBackslash(more: seq<Byte>)
    ensures var over := [BACKSLASH, 0] + more; HasByte(over) && NextByte(over) == (0, 2) && over[2..] == more
  {
    assert ([BACKSLASH, 0] + more)[1] == 0;
  }

  /** And then the unescaper takes the NUL behind it and goes on. */
  lemma UnescapedOverEnd(w: seq<Byte>, more: seq<Byte>)
    requires Resolvable(w) && 0 !in w
    ensures Bounded(w + ([BACKSLASH, 0] + more)) <==> Bounded(more)
    ensures Bounded(more) ==>
      && Unescaped(w + ([BACKSLASH, 0] + more)) == Resolve(w) + ([0] + Unescaped(more))
      && Reads(w + ([BACKSLASH, 0] + more)) == |w| + 2 + Reads(more)
  {
    hide Resolvable, Resolve;
    var over := [BACKSLASH, 0] + more;
    NulAfterBackslash(more);
    BoundedBefore(w, over);
    hide Bounded, Unescaped, Reads, NextByte;
    if Bounded(more) {
      BoundedBack(over);
      UnescapedBefore(w, over);
      UnescapedStep(over);
      ReadsStep(over);
    } else if Bounded(over) {
      BoundedStep(over);
    }
  }

  /** Exactly when the unescaper stays within its string: if there is no lone backslash at the end. */
  lemma StaysWithinExactly(s: seq<Byte>, more: seq<Byte>)
    requires 0 !in s && more != [] && more[0] == 0 && Bounded(s + more)
    ensures Reads(s + more) == |s| <==> Resolvable(s)
  {
    hide Resolvable, Resolve, Bounded, Unescaped, Reads;
    if Resolvable(s) {
      UnescapedWithin(s, more);
    } else {
      var w := LoneAtEnd(s);
      assert s + more == w + ([BACKSLASH, 0] + more[1..]);
      UnescapedOverEnd(w, more[1..]);
    }
  }

  /** However far it reads, what it writes has a NUL no later than its string had. */
  lemma {:induction false} NulStays(m: seq<Byte>, n: nat)
    requires Bounded(m) && CStringAt(m, 0, n)
    ensures |UpToNul(Unescaped(m))| <= n
    decreases |m|
  {
    hide NextByte, Bounded, Unescaped;
    if m[0] == 0 {
      UnescapedEnd(m);
    } else {
      UnescapedStep(m);
      EscapeOverEnd(m, n);
      var (c, k) := NextByte(m);
      assert ([c] + Unescaped(m[k..]))[1..] == Unescaped(m[k..]);
      if k <= n {
        NulStays(m[k..], n - k);
      }
    }
  }

  // ----- Scanning -----

  lemma SkipStep(line: seq<Byte>, i: nat, e: nat)
    requires CStringAt(line, i, e)
    ensures IsSpace(line[i]) ==> i < e && SkipSpaces(line[i..e]) == SkipSpaces(line[i + 1..e])
    ensures !IsSpace(line[i]) ==> SkipSpaces(line[i..e]) == line[i..e]
  {
    assert IsSpace(line[i]) ==> i < e;
    if i < e {
      var s := line[i..e];
      assert s != [] && s[0] == line[i] && s[1..] == line[i + 1..e];
    }
  }

  lemma QuotedStep(line: seq<Byte>, i: nat, e: nat, delim: Byte)
    requires CStringAt(line, i, e)
    ensures var n := QuotedLength(line[i..e], delim);
      if line[i] == 0 || line[i] == delim then n == 0
      else if line[i] == BACKSLASH && delim == QUOTE && line[i + 1] != 0 then
        i + 2 <= e && n == 2 + QuotedLength(line[i + 2..e], delim)
      else i + 1 <= e && n == 1 + QuotedLength(line[i + 1..e], delim)
  {
    assert i < e ==> line[i..e][1..] == line[i + 1..e];
    assert i + 1 < e ==> line[i..e][2..] == line[i + 2..e];
  }

  lemma WordStep(line: seq<Byte>, i: nat, e: nat)
    requires CStringAt(line, i, e)
    ensures var n := WordLength(line[i..e]);
      if line[i] == 0 || IsSpace(line[i]) then n == 0 else i < e && n == 1 + WordLength(line[i + 1..e])
  {
    assert i < e ==> line[i..e][1..] == line[i + 1..e];
  }

  method SkipSpace(z: array<Byte>, p: nat, ghost e: nat) returns (i: nat)
    requires CStringAt(z[..], p, e)
    ensures p <= i <= e && z[..][i..e] == SkipSpaces(z[..][p..e])
  {
    hide SkipSpaces;
    ghost var line := z[..];
    i := p;
    SkipStep(line, i, e);
    while IsSpace(z[i])
      invariant p <= i <= e && SkipSpaces(line[i..e]) == SkipSpaces(line[p..e])
      decreases e - i
    {
      SkipStep(line, i, e);
      i := i + 1;
    }
    SkipStep(line, i, e);
  }

  method QuotedEnd(z: array<Byte>, p: nat, delim: Byte, ghost e: nat) returns (i: nat)
    requires CStringAt(z[..], p, e)
    ensures p <= i <= e && i - p == QuotedLength(z[..][p..e], delim)
  {
    hide QuotedLength;
    ghost var line := z[..];
    i := p;
    while z[i] != 0 && z[i] != delim
      invariant p <= i <= e && i - p + QuotedLength(line[i..e], delim) == QuotedLength(line[p..e], delim)
      decreases e - i
    {
      QuotedStep(line, i, e, delim);
      if z[i] == BACKSLASH && delim == QUOTE && z[i + 1] != 0 {
        i := i + 1;
      }
      i := i + 1;
    }
    QuotedStep(line, i, e, delim);
  }

  method WordEnd(z: array<Byte>, p: nat, ghost e: nat) returns (i: nat)
    requires CStringAt(z[..], p, e)
    ensures p <= i <= e && i - p == WordLength(z[..][p..e])
  {
    hide WordLength;
    ghost var line := z[..];
    i := p;
    while z[i] != 0 && !IsSpace(z[i])
      invariant p <= i <= e && i - p + WordLength(line[i..e]) == WordLength(line[p..e])
      decreases e - i
    {
      WordStep(line, i, e);
      i := i + 1;
    }
    WordStep(line, i, e);
  }

  lemma FirstQuoted(s: seq<Byte>, body: seq<Byte>, n: nat)
    requires s != [] && s[0] in {APOSTROPHE, QUOTE} && body == s[1..] && n == QuotedLength(body, s[0])
    ensures n <= |body| && (n < |body| ==> body[n] == s[0])
    ensures FirstToken(s) == Token(body[..n], s[0] == QUOTE, 1, if n < |body| then body[n + 1..] else [])
  {
  }

  lemma FirstWord(s: seq<Byte>, n: nat)
    requires s != [] && s[0] !in {APOSTROPHE, QUOTE} && n == WordLength(s)
    ensures n <= |s| && (n < |s| ==> IsSpace(s[n])) && (!IsSpace(s[0]) ==> n > 0)
    ensures FirstToken(s) == Token(s[..n], true, 0, if n < |s| then s[n + 1..] else [])
  {
  }

  // ----- Splitting -----

  /** Where the next token of the memory m lies and whether it is unescaped. */
  datatype Extent = Extent(arg: nat, end: nat, escapes: bool)

  /** The line has another token. */
  predicate AnotherToken(m: seq<Byte>) {
    SkipSpaces(UpToNul(m)) != []
  }

  function ExtentIn(line: seq<Byte>): (x: Extent)
    requires SkipSpaces(line) != []
    ensures x.arg <= x.end <= |line|
  {
    var s := SkipSpaces(line);
    var t := FirstToken(s);
    var arg := |line| - |s| + t.skipped;
    Extent(arg, arg + |t.raw|, t.escapes)
  }

  function ExtentOf(m: seq<Byte>): Extent
    requires AnotherToken(m)
  {
    ExtentIn(UpToNul(m))
  }

  /** The token is cut off at its end. */
  function CutOff(m: seq<Byte>, x: Extent): seq<Byte>
    requires x.arg <= x.end < |m|
  {
    m[x.end := 0]
  }

  predicate Finishable(m: seq<Byte>, x: Extent) {
    x.arg <= x.end < |m| && (x.escapes ==> Bounded(CutOff(m, x)[x.arg..]))
  }

  /** The memory after that and after the unescaping. */
  function Finished(m: seq<Byte>, x: Extent): (m': seq<Byte>)
    requires Finishable(m, x)
    ensures |m'| == |m|
  {
    var cut := CutOff(m, x);
    if x.escapes then Stored(cut, x.arg, Unescaped(cut[x.arg..])) else cut
  }

  /** Where the line goes on. */
  function After(m: seq<Byte>, x: Extent): nat
    requires x.end < |m|
  {
    if m[x.end] != 0 then x.end + 1 else x.end
  }

  /** The token as a C string. */
  function ArgOf(m: seq<Byte>): Text
    requires AnotherToken(m) && Finishable(m, ExtentOf(m))
  {
    UpToNul(Finished(m, ExtentOf(m))[ExtentOf(m).arg..])
  }

  /** The memory from where the line goes on. */
  function RestOf(m: seq<Byte>): seq<Byte>
    requires AnotherToken(m) && Finishable(m, ExtentOf(m))
  {
    Finished(m, ExtentOf(m))[After(m, ExtentOf(m))..]
  }

  /** Some NUL ends the line, and whatever is unescaped ends inside the memory. */
  predicate Splittable(m: seq<Byte>, room: nat)
    decreases room
  {
    0 in m &&
    (room > 0 && AnotherToken(m) ==> Finishable(m, ExtentOf(m)) && Splittable(RestOf(m), room - 1))
  }

  /** The arguments: each the token that the memory holds when its turn comes. */
  function Args(m: seq<Byte>, room: nat): (args: seq<Text>)
    requires Splittable(m, room)
    ensures |args| <= room
    decreases room
  {
    if room == 0 || !AnotherToken(m) then [] else [ArgOf(m)] + Args(RestOf(m), room - 1)
  }

  lemma {:induction false} LineAt(m: seq<Byte>, p: nat, e: nat)
    requires CStringAt(m, p, e)
    ensures UpToNul(m[p..]) == m[p..e]
    decreases e - p
  {
    if p < e {
      LineAt(m, p + 1, e);
      assert m[p..][0] == m[p] && m[p..][1..] == m[p + 1..];
      assert m[p..e] == [m[p]] + m[p + 1..e];
    } else {
      assert m[p..][0] == 0;
    }
  }

  lemma QuotedExtent(m: seq<Byte>, p: nat, e: nat, start: nat, end: nat)
    requires CStringAt(m, p, e) && p <= start < e && m[start..e] == SkipSpaces(m[p..e])
    requires m[start] in {APOSTROPHE, QUOTE}
    requires start < end && end - (start + 1) == QuotedLength(m[start + 1..e], m[start])
    ensures end <= e && (m[end] == m[start] <==> m[end] != 0) && AnotherToken(m[p..])
    ensures ExtentOf(m[p..]) == Extent(start + 1 - p, end - p, m[start] == QUOTE)
  {
    hide QuotedLength, FirstToken, SkipSpaces, UpToNul, ExtentIn, CStringAt;
    LineAt(m, p, e);
    StringInside(m, p, e, start);
    var s, body, n := m[start..e], m[start + 1..e], end - (start + 1);
    FirstQuoted(s, body, n);
    ExtentFrom(m[p..e], FirstToken(s));
    assert n < |body| ==> body[n] == m[end];
    CharAt(m, start, e, end);
  }

  lemma CharAt(m: seq<Byte>, p: nat, e: nat, k: nat)
    requires CStringAt(m, p, e) && p <= k <= e
    ensures m[k] == 0 <==> k == e
  {
  }

  lemma WordExtent(m: seq<Byte>, p: nat, e: nat, start: nat, end: nat)
    requires CStringAt(m, p, e) && p <= start < e && m[start..e] == SkipSpaces(m[p..e])
    requires m[start] !in {APOSTROPHE, QUOTE}
    requires start <= end && end - start == WordLength(m[start..e])
    ensures end <= e && AnotherToken(m[p..])
    ensures ExtentOf(m[p..]) == Extent(start - p, end - p, true)
  {
    hide WordLength, FirstToken, SkipSpaces, UpToNul, ExtentIn;
    LineAt(m, p, e);
    FirstWord(m[start..e], end - start);
    ExtentFrom(m[p..e], FirstToken(m[start..e]));
  }

  lemma ExtentFrom(line: seq<Byte>, t: Token)
    requires SkipSpaces(line) != [] && FirstToken(SkipSpaces(line)) == t
    ensures var arg := |line| - |SkipSpaces(line)| + t.skipped;
      ExtentIn(line) == Extent(arg, arg + |t.raw|, t.escapes)
  {
  }

  /** What the token's round leaves: the extent x in the memory from index p on. */
  ghost predicate RoundDone(before: seq<Byte>, after: seq<Byte>, p: nat, x: Extent, arg: nat, i: nat) {
    && p <= |before| && Finishable(before[p..], x)
    && after == before[..p] + Finished(before[p..], x)
    && arg == p + x.arg && i == p + After(before[p..], x)
  }

  lemma CutShifts(m: seq<Byte>, p: nat, x: Extent)
    requires p <= |m| && x.arg <= x.end && p + x.end < |m|
    ensures var x' := Extent(p + x.arg, p + x.end, x.escapes);
      && m[p..][x.end] == m[p + x.end] && After(m, x') == p + After(m[p..], x)
      && CutOff(m, x') == m[..p] + CutOff(m[p..], x) && CutOff(m, x')[p + x.arg..] == CutOff(m[p..], x)[x.arg..]
  {
  }

  lemma StoredShifts(m: seq<Byte>, p: nat, q: nat, r: seq<Byte>)
    requires p <= |m| && p + q + |r| < |m|
    ensures Stored(m, p + q, r) == m[..p] + Stored(m[p..], q, r)
  {
  }

  /** Cuts the token off at its end unless the line ends there, and unescapes it in place if asked to. */
  method FinishToken(z: array<Byte>, ghost p: nat, arg: nat, end: nat, cut: bool, escapes: bool) returns (i: nat)
    requires p <= arg <= end < z.Length && cut == (z[end] != 0)
    requires Finishable(z[..][p..], Extent(arg - p, end - p, escapes))
    modifies z
    ensures RoundDone(old(z[..]), z[..], p, Extent(arg - p, end - p, escapes), arg, i)
  {
    hide Bounded, Unescaped, Stored;
    ghost var m, x := z[..], Extent(arg - p, end - p, escapes);
    CutShifts(m, p, x);
    i := end;
    if cut {
      z[i] := 0;
      i := i + 1;
    }
    assert z[..] == m[end := 0];
    if escapes {
      StoredShifts(z[..], p, x.arg, Unescaped(z[..][arg..]));
      ResolveBackslashes(z, arg);
      assert m[end := 0][..p] == m[..p] && m[end := 0][p..] == CutOff(m[p..], x);
    }
  }

  lemma StringInside(m: seq<Byte>, p: nat, e: nat, q: nat)
    requires CStringAt(m, p, e) && p <= q <= e
    ensures e < |m| && CStringAt(m, q, e) && (q < e ==> CStringAt(m, q + 1, e))
  {
  }

  /** Reads the token that starts at index `start`, the first one of the line from index p on. */
  method ReadToken(z: array<Byte>, ghost p: nat, start: nat, ghost e: nat) returns (arg: nat, i: nat)
    requires CStringAt(z[..], p, e) && p <= start < e && z[..][start..e] == SkipSpaces(z[..][p..e])
    requires AnotherToken(z[..][p..]) ==> Finishable(z[..][p..], ExtentOf(z[..][p..]))
    modifies z
    ensures AnotherToken(old(z[..])[p..])
    ensures RoundDone(old(z[..]), z[..], p, ExtentOf(old(z[..])[p..]), arg, i)
  {
    hide ExtentOf, Finishable, RoundDone, SkipSpaces, QuotedLength, WordLength, CStringAt, AnotherToken;
    ghost var m := z[..];
    StringInside(m, p, e, start);
    if z[start] == APOSTROPHE || z[start] == QUOTE {
      var delim := z[start];
      arg := start + 1;
      i := QuotedEnd(z, arg, delim, e);
      QuotedExtent(m, p, e, start, i);
      i := FinishToken(z, p, arg, i, z[i] == delim, delim == QUOTE);
    } else {
      arg := start;
      i := WordEnd(z, start, e);
      WordExtent(m, p, e, start, i);
      i := FinishToken(z, p, arg, i, z[i] != 0, true);
    }
  }

  lemma {:induction false} NulAt(m: seq<Byte>)
    requires 0 in m
    ensures |UpToNul(m)| < |m| && m[|UpToNul(m)|] == 0 && UpToNul(m) == m[..|UpToNul(m)|]
  {
    if m[0] != 0 {
      assert m == [m[0]] + m[1..];
      NulAt(m[1..]);
    }
  }

  lemma {:induction false} UpToFirst(a: seq<Byte>, b: seq<Byte>)
    requires b != [] && b[0] == 0
    ensures UpToNul(a + b) == UpToNul(a)
  {
    if a == [] {
      assert a + b == b;
    } else {
      assert (a + b)[1..] == a[1..] + b;
      UpToFirst(a[1..], b);
    }
  }

  /** The unescaped string at the front of m, whose first NUL is at index n. */
  lemma UnescapedHeld(m: seq<Byte>, n: nat)
    requires Bounded(m) && CStringAt(m, 0, n)
    ensures var m' := Stored(m, 0, Unescaped(m)); |UpToNul(m')| <= n && 0 in m'
  {
    hide Bounded, Unescaped, UpToNul;
    var r := Unescaped(m);
    NulStays(m, n);
    var more := [0] + m[|r| + 1..];
    assert Stored(m, 0, r) == r + more;
    UpToFirst(r, more);
    assert (r + more)[|r|] == 0;
  }

  /** A finished token lies within its extent as a C string. */
  lemma TokenHeld(m: seq<Byte>, x: Extent)
    requires 0 in m && AnotherToken(m) && x == ExtentOf(m) && Finishable(m, x)
    ensures var t := UpToNul(Finished(m, x)[x.arg..]); x.arg + |t| <= x.end && Holds(Finished(m, x), x.arg, t)
  {
    hide AnotherToken, ExtentOf, Bounded, Unescaped, UpToNul, Stored;
    var cut, m', n := CutOff(m, x), Finished(m, x), x.end - x.arg;
    ExtentInside(m);
    assert CStringAt(cut[x.arg..], 0, n);
    if x.escapes {
      StoredShifts(cut, x.arg, 0, Unescaped(cut[x.arg..]));
      UnescapedHeld(cut[x.arg..], n);
      assert m'[x.arg..] == Stored(cut[x.arg..], 0, Unescaped(cut[x.arg..]));
    } else {
      LineAt(cut, x.arg, x.end);
      assert cut[x.arg..][n] == 0;
    }
    NulAt(m'[x.arg..]);
    HoldsAt(m', x.arg);
  }

  lemma HoldsAt(m: seq<Byte>, p: nat)
    requires p < |m| && 0 in m[p..]
    ensures Holds(m, p, UpToNul(m[p..]))
  {
    NulAt(m[p..]);
  }

  lemma ExtentInside(m: seq<Byte>)
    requires 0 in m && AnotherToken(m)
    ensures var x := ExtentOf(m); x.arg <= x.end < |m| && forall k :: 0 <= k < x.end ==> m[k] != 0
  {
    NulAt(m);
    var x, line := ExtentOf(m), UpToNul(m);
    forall k | 0 <= k < x.end ensures m[k] != 0 {
      assert line[k] == m[k];
    }
  }

  lemma LineFrom(z: seq<Byte>, p: nat, e: nat)
    requires p < |z| && 0 in z[p..] && e == p + |UpToNul(z[p..])|
    ensures CStringAt(z, p, e)
  {
    NulAt(z[p..]);
    forall k | p <= k < e ensures z[k] != 0 {
      assert z[k] == z[p..][k - p] == UpToNul(z[p..])[k - p];
    }
  }

  /** What the next round finds. */
  lemma RoundLeaves(line: seq<Byte>, z: seq<Byte>, p: nat, arg: nat, i: nat)
    requires p < |line| && var m := line[p..];
      0 in m && AnotherToken(m) && m[0] != 0 && RoundDone(line, z, p, ExtentOf(m), arg, i)
    ensures var m := line[p..];
      && Finishable(m, ExtentOf(m)) && |z| == |line| && z[..p] == line[..p] && p < i < |z| && z[i..] == RestOf(m)
      && p <= arg && Holds(z, arg, ArgOf(m))
      && (arg + |ArgOf(m)| < i || (arg + |ArgOf(m)| == i && z[i] == 0))
  {
    hide AnotherToken, ExtentOf, Bounded, Unescaped, Finished, UpToNul;
    var m := line[p..];
    var x := ExtentOf(m);
    TokenHeld(m, x);
    ExtentInside(m);
    NulAt(m);
    ExtentEnds(m);
    assert z[arg..] == Finished(m, x)[x.arg..];
  }

  lemma ExtentEnds(m: seq<Byte>)
    requires 0 in m && AnotherToken(m) && m[0] != 0
    ensures var x := ExtentOf(m); 0 < x.end < |m| && (m[x.end] != 0 ==> x.end + 1 < |m|)
  {
    NulAt(m);
  }

  /** One round of the loop: the next token, if there is one, and where the line goes on. */
  method NextToken(z: array<Byte>, p: nat, ghost room: nat) returns (found: bool, arg: nat, i: nat)
    requires p < z.Length && room > 0 && Splittable(z[..][p..], room) && z[p] != 0
    modifies z
    ensures found <==> AnotherToken(old(z[..])[p..])
    ensures !found ==> z[..] == old(z[..])
    ensures found ==>
      var m := old(z[..])[p..];
      && Finishable(m, ExtentOf(m)) && z[..][..p] == old(z[..])[..p] && p < i < z.Length && z[..][i..] == RestOf(m)
      && p <= arg && Holds(z[..], arg, ArgOf(m))
      && (arg + |ArgOf(m)| < i || (arg + |ArgOf(m)| == i && z[i] == 0))
  {
    hide SkipSpaces, FirstToken, IsSpace, ExtentIn, Bounded, Unescaped, UpToNul;
    ghost var m, line := z[..][p..], z[..];
    NulAt(m);
    ghost var e := p + |UpToNul(m)|;
    LineFrom(z[..], p, e);
    LineAt(z[..], p, e);
    i := SkipSpace(z, p, e);
    if z[i] == 0 {
      assert z[..][i..e] == [];
      return false, 0, i;
    }
    found := true;
    ghost var x := ExtentOf(m);
    TokenHeld(m, x);
    arg, i := ReadToken(z, p, i, e);
    RoundLeaves(line, z[..], p, arg, i);
  }

  /** The strings found so far lie in the part of the memory that is already passed. */
  ghost predicate Found(z: seq<Byte>, azArg: seq<nat>, tokens: seq<seq<Byte>>, i: nat) {
    && |azArg| == |tokens| && i < |z|
    && forall k :: 0 <= k < |azArg| ==>
      Holds(z, azArg[k], tokens[k]) && (azArg[k] + |tokens[k]| < i || (azArg[k] + |tokens[k]| == i && z[i] == 0))
  }

  lemma FoundAppend(a: seq<Byte>, b: seq<Byte>, azArg: seq<nat>, tokens: seq<seq<Byte>>, p: nat, i: nat,
                    arg: nat, token: seq<Byte>)
    requires Found(a, azArg, tokens, p) && a[p] != 0 && p < i < |b| && |a| == |b| && b[..p] == a[..p]
    requires Holds(b, arg, token) && (arg + |token| < i || (arg + |token| == i && b[i] == 0))
    ensures Found(b, azArg + [arg], tokens + [token], i)
  {
    assert forall k :: 0 <= k < p ==> a[k] == a[..p][k] == b[..p][k] == b[k];
    forall k | 0 <= k < |azArg| ensures Holds(b, azArg[k], tokens[k]) && azArg[k] + |tokens[k]| < i {
      assert Holds(a, azArg[k], tokens[k]);
      assert b[azArg[k]..azArg[k] + |tokens[k]|] == a[azArg[k]..azArg[k] + |tokens[k]|];
    }
  }

  lemma ArgsStep(m: seq<Byte>, room: nat)
    requires Splittable(m, room)
    ensures 0 in m && (room == 0 || !AnotherToken(m) ==> Args(m, room) == [])
    ensures room > 0 && AnotherToken(m) ==>
      && Finishable(m, ExtentOf(m)) && Splittable(RestOf(m), room - 1)
      && Args(m, room) == [ArgOf(m)] + Args(RestOf(m), room - 1)
  {
    hide AnotherToken, Finishable, ExtentOf, RestOf, ArgOf;
  }

  lemma NoToken(m: seq<Byte>)
    requires m != [] && m[0] == 0
    ensures !AnotherToken(m)
  {
  }

  /**
    The argument array of a command line: pointers into the memory, in order, at the C strings that are its
    arguments.  The only thing asked is that no unescaping runs out of the memory.
  */
  method Tokenize(z: array<Byte>) returns (azArg: seq<nat>)
    requires z.Length > 1 && Splittable(z[..][1..], MAX_ARGS)
    modifies z
    ensures |azArg| == |Args(old(z[..])[1..], MAX_ARGS)|
    ensures forall k :: 0 <= k < |azArg| ==> Holds(z[..], azArg[k], Args(old(z[..])[1..], MAX_ARGS)[k])
  {
    hide Args, Splittable, AnotherToken, Finishable, ExtentOf, RestOf, ArgOf, Holds;
    ghost var args := Args(z[..][1..], MAX_ARGS);
    ghost var done: seq<seq<Byte>> := [];
    var i := 1;
    azArg := [];
    while z[i] != 0 && |azArg| < MAX_ARGS
      invariant 1 <= i < z.Length && |azArg| <= MAX_ARGS && Found(z[..], azArg, done, i)
      invariant Splittable(z[..][i..], MAX_ARGS - |azArg|)
      invariant done + Args(z[..][i..], MAX_ARGS - |azArg|) == args
      decreases z.Length - i
    {
      ghost var before := z[..];
      ghost var m := before[i..];
      var p := i;
      ArgsStep(m, MAX_ARGS - |azArg|);
      var found, arg;
      found, arg, i := NextToken(z, p, MAX_ARGS - |azArg|);
      if !found {
        return;
      }
      FoundAppend(before, z[..], azArg, done, p, i, arg, ArgOf(m));
      azArg, done := azArg + [arg], done + [ArgOf(m)];
    }
    if z[i] == 0 {
      NoToken(z[..][i..]);
    }
    ArgsStep(z[..][i..], MAX_ARGS - |azArg|);
  }

  // ----- Lines that mean what they say -----

  function Value(t: Token): seq<Byte>
    requires t.escapes ==> Resolvable(t.raw)
  {
    if t.escapes then Resolve(t.raw) else t.raw
  }

  lemma TokensStep(line: seq<Byte>, room: nat)
    requires Tokenizable(line, room)
    ensures room == 0 || SkipSpaces(line) == [] ==> Tokens(line, room) == []
    ensures room > 0 && SkipSpaces(line) != [] ==>
      var t := FirstToken(SkipSpaces(line));
      && (t.escapes ==> Resolvable(t.raw)) && Tokenizable(t.rest, room - 1)
      && Tokens(line, room) == [Value(t)] + Tokens(t.rest, room - 1)
  {
  }

  lemma PartsOfToken(s: seq<Byte>, t: Token)
    requires s != [] && t == FirstToken(s)
    ensures t.raw == s[t.skipped..t.skipped + |t.raw|]
    ensures var end := t.skipped + |t.raw|; t.rest == if end < |s| then s[end + 1..] else []
  {
    if s[0] in {APOSTROPHE, QUOTE} {
      var body := s[1..];
      var n := QuotedLength(body, s[0]);
      assert n < |body| ==> body[n + 1..] == s[n + 2..];
    }
  }

  lemma SliceOfRest(line: seq<Byte>, k: nat, lo: nat, hi: nat)
    requires k <= |line| && lo <= hi <= |line| - k
    ensures line[k..][lo..hi] == line[k + lo..k + hi]
    ensures line[k..][hi..] == line[k + hi..]
  {
  }

  /** A token of the end s of a line as a part of the line. */
  lemma TokenOfEnd(line: seq<Byte>, s: seq<Byte>, t: Token)
    requires |s| <= |line| && s == line[|line| - |s|..] && t.skipped + |t.raw| <= |s|
    requires t.raw == s[t.skipped..t.skipped + |t.raw|]
    requires var end := t.skipped + |t.raw|; t.rest == if end < |s| then s[end + 1..] else []
    ensures var arg := |line| - |s| + t.skipped;
      var end := arg + |t.raw|;
      t.raw == line[arg..end] && t.rest == if end < |line| then line[end + 1..] else []
  {
    var k, end := |line| - |s|, t.skipped + |t.raw|;
    SliceOfRest(line, k, t.skipped, end);
    if end < |s| {
      SliceOfRest(line, k, 0, end + 1);
    }
  }

  /** Where a token lies in the line. */
  ghost predicate LiesIn(t: Token, x: Extent, line: seq<Byte>) {
    && x.escapes == t.escapes && x.arg <= x.end <= |line| && t.raw == line[x.arg..x.end]
    && t.rest == if x.end < |line| then line[x.end + 1..] else []
  }

  lemma TokenFrom(line: seq<Byte>, s: seq<Byte>, t: Token, x: Extent)
    requires s != [] && t == FirstToken(s) && |s| <= |line| && s == line[|line| - |s|..]
    requires var arg := |line| - |s| + t.skipped; x == Extent(arg, arg + |t.raw|, t.escapes)
    ensures LiesIn(t, x, line)
  {
    hide FirstToken;
    PartsOfToken(s, t);
    TokenOfEnd(line, s, t);
  }

  lemma TokenInLine(line: seq<Byte>, s: seq<Byte>, t: Token, x: Extent)
    requires s != [] && s == SkipSpaces(line) && t == FirstToken(s) && x == ExtentIn(line)
    ensures LiesIn(t, x, line)
  {
    hide *;
    ExtentFrom(line, t);
    SkipSpacesLeavesEnd(line, s);
    TokenFrom(line, s, t, x);
  }

  lemma LineParts(line: seq<Byte>, tail: seq<Byte>, lo: nat, hi: nat)
    requires lo <= hi <= |line|
    ensures var m := line + [0] + tail;
      && m[lo..hi] == line[lo..hi] && m[hi] == (if hi < |line| then line[hi] else 0)
      && m[hi + 1..] == if hi < |line| then line[hi + 1..] + [0] + tail else tail
  {
  }

  /** A string within the memory that is followed by a NUL. */
  lemma CutRaw(m: seq<Byte>, x: Extent, raw: seq<Byte>)
    requires x.arg <= x.end < |m| && raw == m[x.arg..x.end]
    ensures var more := CutOff(m, x)[x.end..];
      CutOff(m, x)[x.arg..] == raw + more && more != [] && more[0] == 0 && x.end == x.arg + |raw|
  {
  }

  lemma StoredIn(cut: seq<Byte>, arg: nat, r: seq<Byte>, end: nat)
    requires arg + |r| <= end < |cut| && cut[end] == 0
    ensures var m := Stored(cut, arg, r);
      m[arg..] == r + ([0] + cut[arg + |r| + 1..]) && m[end] == 0 && m[end + 1..] == cut[end + 1..]
  {
  }

  /** The token is unescaped within itself. */
  lemma UnescapedInPlace(m: seq<Byte>, x: Extent)
    requires x.arg <= x.end < |m| && 0 !in m[x.arg..x.end] && (x.escapes ==> Resolvable(m[x.arg..x.end]))
    ensures Finishable(m, x) && Finished(m, x)[x.end + 1..] == m[x.end + 1..]
    ensures m[x.end] == 0 ==> Finished(m, x)[x.end] == 0
    ensures var raw := m[x.arg..x.end];
      UpToNul(Finished(m, x)[x.arg..]) == UpToNul(if x.escapes then Resolve(raw) else raw)
  {
    hide Resolvable, Resolve, Bounded, Unescaped, Reads, UpToNul, Stored;
    var cut, raw := CutOff(m, x), m[x.arg..x.end];
    var more := cut[x.end..];
    CutRaw(m, x, raw);
    if x.escapes {
      UnescapedWithin(raw, more);
      var r := Resolve(raw);
      StoredIn(cut, x.arg, r, x.end);
      UpToFirst(r, [0] + cut[x.arg + |r| + 1..]);
    } else {
      UpToFirst(raw, more);
    }
  }

  lemma PlainArg(line: Text, tail: seq<Byte>)
    requires SkipSpaces(line) != []
    requires var t := FirstToken(SkipSpaces(line)); t.escapes ==> Resolvable(t.raw)
    ensures var m, t, x := line + [0] + tail, FirstToken(SkipSpaces(line)), ExtentIn(line);
      && 0 in m && AnotherToken(m) && ExtentOf(m) == x && Finishable(m, x) && ArgOf(m) == UpToNul(Value(t))
      && Finished(m, x)[x.end + 1..] == m[x.end + 1..] && (m[x.end] == 0 ==> Finished(m, x)[x.end] == 0)
  {
    hide FirstToken, SkipSpaces, Resolvable, Resolve, Finished, Finishable, UpToNul, AnotherToken, ExtentIn, ExtentOf;
    var x := ExtentIn(line);
    LineHasToken(line, tail);
    TokenInLine(line, SkipSpaces(line), FirstToken(SkipSpaces(line)), x);
    LineParts(line, tail, x.arg, x.end);
    UnescapedInPlace(line + [0] + tail, x);
  }

  lemma RestOfIs(m: seq<Byte>, x: Extent)
    requires AnotherToken(m) && x == ExtentOf(m) && Finishable(m, x)
    ensures x.end < |Finished(m, x)| == |m|
    ensures RestOf(m) == Finished(m, x)[if m[x.end] != 0 then x.end + 1 else x.end..]
  {
    hide AnotherToken, ExtentOf, Finished;
  }

  /** A memory that is the same behind the token. */
  lemma PlainRest(line: Text, tail: seq<Byte>, m': seq<Byte>, t: Token, x: Extent)
    requires LiesIn(t, x, line)
    requires var m := line + [0] + tail;
      |m'| == |m| && m'[x.end + 1..] == m[x.end + 1..] && (m[x.end] == 0 ==> m'[x.end] == 0)
    ensures var end := if (line + [0] + tail)[x.end] != 0 then x.end + 1 else x.end;
      m'[end..] == t.rest + [0] + tail && 0 !in t.rest
  {
    LineParts(line, tail, x.arg, x.end);
    RestFrom(m', x.end);
  }

  /** A token that the unescaper does not leave: its argument, and the rest of the line as it was. */
  lemma PlainRound(line: Text, tail: seq<Byte>)
    requires SkipSpaces(line) != []
    requires var t := FirstToken(SkipSpaces(line)); t.escapes ==> Resolvable(t.raw)
    ensures var m, t := line + [0] + tail, FirstToken(SkipSpaces(line));
      && 0 in m && AnotherToken(m) && Finishable(m, ExtentOf(m)) && ArgOf(m) == UpToNul(Value(t))
      && RestOf(m) == t.rest + [0] + tail && 0 !in t.rest
  {
    hide *;
    var x, t := ExtentIn(line), FirstToken(SkipSpaces(line));
    var m := line + [0] + tail;
    TokenInLine(line, SkipSpaces(line), t, x);
    PlainArg(line, tail);
    RestOfIs(m, x);
    PlainRest(line, tail, Finished(m, x), t, x);
  }

  lemma RestFrom(m: seq<Byte>, end: nat)
    requires end < |m|
    ensures m[end..] == [m[end]] + m[end + 1..]
  {
  }

  /**
    When no unescaped token of the line ends in a lone backslash, its arguments are its tokens, up to their first
    NUL, whatever follows in memory.
  */
  lemma {:induction false} PlainArgs(line: Text, tail: seq<Byte>, room: nat)
    requires Tokenizable(line, room)
    ensures Splittable(line + [0] + tail, room)
    ensures |Args(line + [0] + tail, room)| == |Tokens(line, room)|
    ensures forall k :: 0 <= k < |Tokens(line, room)| ==>
      Args(line + [0] + tail, room)[k] == UpToNul(Tokens(line, room)[k])
    decreases room
  {
    hide AnotherToken, Finishable, ExtentOf, RestOf, ArgOf, FirstToken, SkipSpaces, Value;
    var m := line + [0] + tail;
    TokensStep(line, room);
    LineHasToken(line, tail);
    if room > 0 && SkipSpaces(line) != [] {
      PlainRound(line, tail);
      var t := FirstToken(SkipSpaces(line));
      PlainArgs(t.rest, tail, room - 1);
      ArgsStep(m, room);
    }
  }

  lemma LineHasToken(line: Text, tail: seq<Byte>)
    ensures 0 in line + [0] + tail && (AnotherToken(line + [0] + tail) <==> SkipSpaces(line) != [])
    ensures SkipSpaces(line) != [] ==> ExtentOf(line + [0] + tail) == ExtentIn(line)
  {
    hide SkipSpaces, ExtentIn, UpToNul;
    assert (line + [0] + tail)[|line|] == 0;
    assert line + [0] + tail == line + ([0] + tail);
    UpToFirst(line, [0] + tail);
  }

  // ----- A lone backslash -----

  /** The unescaper stays within the token, if it is unescaped. */
  ghost predicate WithinToken(m: seq<Byte>, x: Extent)
    requires Finishable(m, x)
  {
    x.escapes ==> Reads(CutOff(m, x)[x.arg..]) == x.end - x.arg
  }

  /** The unescaper stays within each token of the line. */
  ghost predicate Within(m: seq<Byte>, room: nat)
    requires Splittable(m, room)
    decreases room
  {
    room > 0 && AnotherToken(m) ==> WithinToken(m, ExtentOf(m)) && Within(RestOf(m), room - 1)
  }

  lemma WithinStep(m: seq<Byte>, room: nat)
    requires Splittable(m, room)
    ensures room == 0 || !AnotherToken(m) ==> Within(m, room)
    ensures room > 0 && AnotherToken(m) ==>
      && Finishable(m, ExtentOf(m)) && Splittable(RestOf(m), room - 1)
      && (Within(m, room) <==> WithinToken(m, ExtentOf(m)) && Within(RestOf(m), room - 1))
  {
    hide AnotherToken, ExtentOf, RestOf, WithinToken;
  }

  lemma TokenizableStep(line: seq<Byte>, room: nat)
    ensures room == 0 || SkipSpaces(line) == [] ==> Tokenizable(line, room)
    ensures room > 0 && SkipSpaces(line) != [] ==>
      var t := FirstToken(SkipSpaces(line));
      Tokenizable(line, room) <==> (t.escapes ==> Resolvable(t.raw)) && Tokenizable(t.rest, room - 1)
  {
    hide SkipSpaces, FirstToken, Resolvable;
  }

  /** The token in memory with the NUL that cuts it off. */
  lemma CutParts(line: Text, tail: seq<Byte>, t: Token, x: Extent)
    requires LiesIn(t, x, line)
    ensures var m := line + [0] + tail;
      x.end < |m| && 0 !in t.raw && CutOff(m, x)[x.arg..] == t.raw + ([0] + m[x.end + 1..])
  {
    var m := line + [0] + tail;
    LineParts(line, tail, x.arg, x.end);
    var cut := CutOff(m, x);
    assert cut[x.arg..] == m[x.arg..x.end] + ([0] + m[x.end + 1..]);
  }

  lemma TokenStaysWithin(line: Text, tail: seq<Byte>, t: Token, x: Extent)
    requires LiesIn(t, x, line) && Finishable(line + [0] + tail, x)
    ensures WithinToken(line + [0] + tail, x) <==> (t.escapes ==> Resolvable(t.raw))
  {
    hide Resolvable, Bounded, Reads, CutOff;
    var m := line + [0] + tail;
    CutParts(line, tail, t, x);
    if x.escapes {
      StaysWithinExactly(t.raw, [0] + m[x.end + 1..]);
    }
  }

  /**
    Exactly when the unescaper stays within each token of a line, whatever lies behind the line: if no unescaped
    token ends in a lone backslash.  By PlainArgs the arguments then are the tokens.
  */
  lemma {:induction false} WithinIffTokenizable(line: Text, tail: seq<Byte>, room: nat)
    requires Splittable(line + [0] + tail, room)
    ensures Within(line + [0] + tail, room) <==> Tokenizable(line, room)
    decreases room
  {
    hide *;
    var m := line + [0] + tail;
    LineHasToken(line, tail);
    WithinStep(m, room);
    TokenizableStep(line, room);
    if room > 0 && SkipSpaces(line) != [] {
      var x, t := ExtentIn(line), FirstToken(SkipSpaces(line));
      TokenInLine(line, SkipSpaces(line), t, x);
      TokenStaysWithin(line, tail, t, x);
      if t.escapes ==> Resolvable(t.raw) {
        PlainRound(line, tail);
        WithinIffTokenizable(t.rest, tail, room - 1);
      }
    }
  }

  /** What is left of the line when the unescaper has written u behind the token, k bytes before the line goes on. */
  function Shifted(u: seq<Byte>, k: nat, rest: seq<Byte>): Text {
    if k <= |u| then UpToNul(u[k..]) else UpToNul(rest)
  }

  lemma StoredOver(cut: seq<Byte>, arg: nat, w: seq<Byte>, u: seq<Byte>, k: nat)
    requires arg + |w| + 1 + |u| < |cut| && arg + |w| + 1 + k <= |cut|
    ensures var m := Stored(cut, arg, w + ([0] + u));
      && m[arg..] == w + ([0] + (u + ([0] + cut[arg + |w| + |u| + 2..])))
      && m[arg + |w| + 1 + k..] ==
         if k <= |u| then u[k..] + ([0] + cut[arg + |w| + |u| + 2..]) else cut[arg + |w| + 1 + k..]
  {
    var m := Stored(cut, arg, w + ([0] + u));
    assert m == cut[..arg] + (w + ([0] + (u + ([0] + cut[arg + |w| + |u| + 2..]))));
    if k <= |u| {
      assert m == (cut[..arg] + w + [0] + u[..k]) + (u[k..] + ([0] + cut[arg + |w| + |u| + 2..]));
    }
  }

  /** The C strings in memory after that: the token, and what follows from where the line goes on. */
  lemma StringsOver(cut: seq<Byte>, arg: nat, w: seq<Byte>, u: seq<Byte>, k: nat)
    requires arg + |w| + 1 + |u| < |cut| && arg + |w| + 1 + k <= |cut|
    ensures var m := Stored(cut, arg, w + ([0] + u));
      UpToNul(m[arg..]) == UpToNul(w) && UpToNul(m[arg + |w| + 1 + k..]) == Shifted(u, k, cut[arg + |w| + 1 + k..])
  {
    hide UpToNul, Stored;
    StoredOver(cut, arg, w, u, k);
    var left := [0] + cut[arg + |w| + |u| + 2..];
    UpToFirst(w, [0] + (u + left));
    if k <= |u| {
      UpToFirst(u[k..], left);
    }
  }

  lemma CutOver(line: Text, tail: seq<Byte>, t: Token, x: Extent, w: seq<Byte>)
    requires LiesIn(t, x, line) && t.raw == w + [BACKSLASH]
    ensures var m := line + [0] + tail;
      && x.escapes == t.escapes && x.end < |m| && x.arg + |w| + 1 == x.end && 0 !in w
      && CutOff(m, x)[x.arg..] == w + ([BACKSLASH, 0] + m[x.end + 1..])
      && forall k :: x.end < k <= |m| ==> CutOff(m, x)[k..] == m[k..]
  {
    CutParts(line, tail, t, x);
    var m := line + [0] + tail;
    assert w + [BACKSLASH] + ([0] + m[x.end + 1..]) == w + ([BACKSLASH, 0] + m[x.end + 1..]);
  }

  /** The same for the memory m and the whole token. */
  lemma FinishedOver(m: seq<Byte>, x: Extent, w: seq<Byte>)
    requires x.escapes && x.arg + |w| + 1 == x.end < |m| && Resolvable(w) && 0 !in w
    requires CutOff(m, x)[x.arg..] == w + ([BACKSLASH, 0] + m[x.end + 1..])
    ensures Finishable(m, x) <==> Bounded(m[x.end + 1..])
    ensures Finishable(m, x) ==>
      var u := Unescaped(m[x.end + 1..]);
      && x.arg + |Resolve(w)| + 1 + |u| < |m|
      && Finished(m, x) == Stored(CutOff(m, x), x.arg, Resolve(w) + ([0] + u))
  {
    hide Bounded, Unescaped, Reads, Resolvable, Resolve, CutOff, Stored;
    UnescapedOverEnd(w, m[x.end + 1..]);
  }

  /**
    The unescaping of the token x of the memory m ends exactly if that of what is behind the token does; and then the
    argument is arg, and what the line has left is what was behind the token, unescaped and shifted by as much as the
    token has become shorter.
  */
  ghost predicate LeavesShifted(m: seq<Byte>, x: Extent, arg: seq<Byte>) {
    && AnotherToken(m) && x == ExtentOf(m) && x.end < |m| && (Finishable(m, x) <==> Bounded(m[x.end + 1..]))
    && (Finishable(m, x) ==>
          var k := After(m, x) - x.arg - |arg| - 1;
          && k >= 0 && ArgOf(m) == UpToNul(arg)
          && UpToNul(RestOf(m)) == Shifted(Unescaped(m[x.end + 1..]), k, m[After(m, x)..]))
  }

  /**
    Any token that ends in a lone backslash.  Its argument is the token without it, unescaped.  The unescaper has run
    on over what is behind the token: from where the line goes on there is now the unescaped text less its first
    bytes, or, if it has become too short for that, the line as it was.
  */
  lemma LoneBackslash(line: Text, tail: seq<Byte>, w: seq<Byte>)
    requires SkipSpaces(line) != []
    requires var t := FirstToken(SkipSpaces(line)); t.escapes && t.raw == w + [BACKSLASH] && Resolvable(w)
    ensures LeavesShifted(line + [0] + tail, ExtentIn(line), Resolve(w))
  {
    hide SkipSpaces, FirstToken, ExtentIn, AnotherToken, ExtentOf, Resolvable, Resolve, Bounded, Unescaped, UpToNul;
    hide Stored, CutOff, Finished, Finishable, Shifted, After, LiesIn, Reads;
    var m, x, t := line + [0] + tail, ExtentIn(line), FirstToken(SkipSpaces(line));
    LineHasToken(line, tail);
    TokenInLine(line, SkipSpaces(line), t, x);
    CutOver(line, tail, t, x, w);
    FinishedOver(m, x, w);
    if Finishable(m, x) {
      AfterCut(m, x);
      var k := After(m, x) - x.arg - |Resolve(w)| - 1;
      StringsOver(CutOff(m, x), x.arg, Resolve(w), Unescaped(m[x.end + 1..]), k);
    }
  }

  lemma AfterCut(m: seq<Byte>, x: Extent)
    requires x.arg <= x.end < |m|
    ensures x.end <= After(m, x) <= x.end + 1 && |CutOff(m, x)| == |m|
    ensures CutOff(m, x)[After(m, x)..] == m[After(m, x)..]
  {
    if m[x.end] == 0 {
      assert CutOff(m, x) == m;
    }
  }

  // ----- A printed command, split again -----

  lemma {:induction false} PrintedArgsAppend(args: seq<(seq<Byte>, seq<Byte>)>, arg: (seq<Byte>, seq<Byte>))
    ensures PrintedArgs(args + [arg]) == PrintedArgs(args) + arg.0 + Quoted(arg.1)
  {
    hide Quoted;
    if args == [] {
      assert [arg][1..] == [];
      assert PrintedArgs([arg]) == arg.0 + Quoted(arg.1) + PrintedArgs([]);
    } else {
      assert (args + [arg])[1..] == args[1..] + [arg];
      PrintedArgsAppend(args[1..], arg);
    }
  }

  lemma {:induction false} PrintedArgsNoNul(args: seq<(seq<Byte>, seq<Byte>)>)
    requires forall k :: 0 <= k < |args| ==> Gap(args[k].0)
    ensures 0 !in PrintedArgs(args)
  {
    if args != [] {
      EscapedIsPrintable(args[0].1);
      PrintedArgsNoNul(args[1..]);
    }
  }

  /** A command line: the word, and each string as output_c_string prints it. */
  method PrintCommand(cmd: Text, space: Byte, args: seq<(seq<Byte>, Text)>) returns (line: seq<Byte>)
    ensures line == cmd + [space] + PrintedArgs(args)
  {
    hide PrintedArgs, Quoted;
    line := cmd + [space];
    NoArgs();
    for k := 0 to |args|
      invariant line == cmd + [space] + PrintedArgs(args[..k])
    {
      var quoted := OutputCString(args[k].1);
      assert args[..k + 1] == args[..k] + [args[k]];
      PrintedArgsAppend(args[..k], args[k]);
      line := line + args[k].0 + quoted;
    }
    assert args[..|args|] == args;
  }

  lemma NoArgs()
    ensures PrintedArgs([]) == []
  {
  }

  /** What one shell prints as a dot command another one splits in place: the word and the strings, in order. */
  method PrintAndSplit(cmd: Text, space: Byte, args: seq<(seq<Byte>, Text)>)
      returns (z: array<Byte>, azArg: seq<nat>)
    requires CommandWord(cmd) && IsSpace(space) && forall k :: 0 <= k < |args| ==> Gap(args[k].0)
    ensures |azArg| == 1 + (if |args| < 49 then |args| else 49)
    ensures Holds(z[..], azArg[0], cmd)
    ensures forall k :: 1 <= k < |azArg| ==> Holds(z[..], azArg[k], args[k - 1].1)
  {
    hide Tokens, Tokenizable, PrintedArgs, Gap, CommandWord, Holds, Args, Splittable;
    var line := PrintCommand(cmd, space, args);
    PrintedArgsNoNul(args);
    var whole := [46] + line + [0];
    z := new Byte[|whole|](i requires 0 <= i < |whole| => whole[i]);
    assert z[..] == whole;
    assert whole[1..] == line + [0] + [];
    DotCommandReadsBack(cmd, space, args);
    PlainArgs(line, [], MAX_ARGS);
    azArg := Tokenize(z);
  }
}

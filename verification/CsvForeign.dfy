/**
  How csv_read_one_field of src/sqlite3/shell.c reads fields that other programs wrote: quoted whether or not they need
  it, with lines ended by LF or by CR LF, and the last line perhaps by nothing.
*/
module CsvForeign {
  import opened Common
  import opened Csv

  /** What follows a field. */
  datatype End = BySeparator | ByLf | ByCrLf | ByEof

  function EndBytes(e: End, sep: Byte): seq<Byte> {
    match e
    case BySeparator => [sep]
    case ByLf => [LF]
    case ByCrLf => [CR, LF]
    case ByEof => []
  }

  function Terminator(e: End, sep: Byte): int {
    match e
    case BySeparator => sep
    case ByLf => LF
    case ByCrLf => LF
    case ByEof => EOF
  }

  /** A separator that the reader can recognize anywhere. */
  ghost predicate Ordinary(sep: Byte) {
    0 < sep < 128 && sep !in {QUOTE, CR, LF}
  }

  lemma BackUpPast(z: seq<Byte>, after: seq<Byte>)
    requires after == [] || after == [CR]
    ensures QUOTE in z + [QUOTE] + after && BackUp(z + [QUOTE] + after) == z
  {
    var s := z + [QUOTE] + after;
    assert s[|z|] == QUOTE;
    if after == [CR] {
      assert s[..|s| - 1] == z + [QUOTE];
    }
    assert (z + [QUOTE])[..|z|] == z;
  }

  lemma ClosingQuote(z: seq<Byte>, sep: Byte, tail: seq<Byte>)
    requires Ordinary(sep)
    ensures ReadQuoted([QUOTE] + tail, sep, z, PreviousOf(z)) == ReadQuoted(tail, sep, z + [QUOTE], QUOTE)
  {
    assert ([QUOTE] + tail)[1..] == tail;
  }

  lemma EndsField(c: Byte, tail: seq<Byte>, cSep: int, z: seq<Byte>, pc: Byte)
    requires Previous(z, pc) && c != QUOTE && Ends(c, cSep, z, pc) && QUOTE in z
    ensures ReadQuoted([c] + tail, cSep, z, pc) == Field(BackUp(z), c, tail)
  {
    assert ([c] + tail)[1..] == tail;
  }

  lemma CarriageReturnStays(tail: seq<Byte>, sep: Byte, z: seq<Byte>)
    requires Ordinary(sep) && Previous(z, QUOTE)
    ensures ReadQuoted([CR] + tail, sep, z, QUOTE) == ReadQuoted(tail, sep, z + [CR], CR)
  {
    assert ([CR] + tail)[1..] == tail;
  }

  /** After the closing quote. */
  lemma QuotedEnds(z: seq<Byte>, sep: Byte, e: End, rest: seq<Byte>)
    requires Ordinary(sep) && (e == ByEof ==> rest == [])
    ensures ReadQuoted(EndBytes(e, sep) + rest, sep, z + [QUOTE], QUOTE) == Field(z, Terminator(e, sep), rest)
  {
    var closed := z + [QUOTE];
    var after := closed + [CR];
    BackUpPast(z, []);
    BackUpPast(z, [CR]);
    assert closed + [] == closed && after[|after| - 2] == QUOTE;
    if e == ByEof {
      assert EndBytes(e, sep) + rest == [];
    } else if e == ByCrLf {
      hide ReadQuoted, BackUp;
      assert EndBytes(e, sep) + rest == [CR] + ([LF] + rest);
      CarriageReturnStays([LF] + rest, sep, closed);
      EndsField(LF, rest, sep, after, CR);
    } else {
      hide ReadQuoted, BackUp;
      EndsField(if e == ByLf then LF else sep, rest, sep, closed, QUOTE);
    }
  }

  lemma QuotedInput(d: seq<Byte>, end: seq<Byte>, rest: seq<Byte>)
    ensures var input := [QUOTE] + d + [QUOTE] + end + rest;
      input[0] == QUOTE && input[1..] == d + ([QUOTE] + (end + rest))
  {
  }

  /** A quoted field is read back whatever ends it, unless it holds a quote directly followed by CR LF. */
  lemma QuotedField(z: Text, sep: Byte, e: End, rest: seq<Byte>)
    requires Ordinary(sep) && !HasQuoteCrLf(z) && (e == ByEof ==> rest == [])
    ensures ReadField([QUOTE] + Doubled(z) + [QUOTE] + EndBytes(e, sep) + rest, sep)
         == Field(z, Terminator(e, sep), rest)
  {
    hide Doubled, ReadQuoted, HasQuoteCrLf, EndBytes, Terminator, ReadUnquoted, Ordinary;
    var tail := EndBytes(e, sep) + rest;
    QuotedInput(Doubled(z), EndBytes(e, sep), rest);
    assert [] + z == z;
    ReadBody(z, [QUOTE] + tail, sep, []);
    ClosingQuote(z, sep, tail);
    QuotedEnds(z, sep, e, rest);
  }

  /** What an unquoted field reads as: a carriage return before the line feed is dropped, unless it stands alone. */
  function UnquotedText(z: seq<Byte>, e: End): seq<Byte> {
    match e
    case ByLf => if |z| > 1 && z[|z| - 1] == CR then z[..|z| - 1] else z
    case ByCrLf => if z == [] then [CR] else z
    case _ => z
  }

  lemma UnquotedEnds(z: seq<Byte>, sep: Byte, e: End, rest: seq<Byte>)
    requires Ordinary(sep) && (e == ByEof ==> rest == [])
    ensures ReadUnquoted(EndBytes(e, sep) + rest, sep, z) == Field(UnquotedText(z, e), Terminator(e, sep), rest)
  {
    match e
    case BySeparator => assert ([sep] + rest)[1..] == rest;
    case ByLf => assert ([LF] + rest)[1..] == rest;
    case ByCrLf =>
      var more := z + [CR];
      assert ([CR, LF] + rest)[1..] == [LF] + rest;
      assert ([LF] + rest)[1..] == rest;
      assert ReadUnquoted([CR, LF] + rest, sep, z) == ReadUnquoted([LF] + rest, sep, more);
      assert more[..|z|] == z;
    case ByEof =>
  }

  /** An unquoted field that the separator and LF do not occur in. */
  ghost predicate Unquoted(z: seq<Byte>, sep: Byte) {
    (z != [] ==> z[0] != QUOTE) && forall i :: 0 <= i < |z| ==> z[i] != LF && z[i] != sep
  }

  /**
    How an unquoted field is read, and exactly when it comes back: an empty field before CR LF is read as a carriage
    return, and a field of at least two bytes loses a carriage return that ends it before LF.
  */
  lemma UnquotedField(z: Text, sep: Byte, e: End, rest: seq<Byte>)
    requires Ordinary(sep) && Unquoted(z, sep) && (e == ByEof ==> z != [] && rest == [])
    ensures ReadField(z + EndBytes(e, sep) + rest, sep) == Field(UnquotedText(z, e), Terminator(e, sep), rest)
    ensures UnquotedText(z, e) == z <==> !(e == ByCrLf && z == []) && !(e == ByLf && |z| > 1 && z[|z| - 1] == CR)
  {
    var tail := EndBytes(e, sep) + rest;
    assert z + EndBytes(e, sep) + rest == z + tail;
    assert z != [] ==> (z + tail)[0] == z[0];
    assert z == [] ==> (z + tail)[0] == tail[0];
    assert [] + z == z;
    hide ReadUnquoted, UnquotedText, Terminator;
    ReadPlain(z, tail, sep, []);
    UnquotedEnds(z, sep, e, rest);
    CarriageReturns(z, e);
  }

  lemma CarriageReturns(z: seq<Byte>, e: End)
    ensures UnquotedText(z, e) == z <==> !(e == ByCrLf && z == []) && !(e == ByLf && |z| > 1 && z[|z| - 1] == CR)
  {
  }
}

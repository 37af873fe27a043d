/**
  CSV as the SQLite shell writes it (output_csv and the rows of shell_callback) and as it reads it back
  (csv_read_one_field), both in src/sqlite3/shell.c: section 2 of RFC 4180 with a separator of one's choice.
*/
module Csv {
  import opened Common

  const EOF: int := -1

  /** A separator of one byte. */
  type Separator = b: Byte | b != 0 witness 44

  // ----- Printing -----

  /** The bytes marked 1 in needCsvQuote. */
  predicate NeedCsvQuote(b: Byte) {
    b <= 32 || b == QUOTE || b == APOSTROPHE || b >= 127
  }

  predicate NeedsQuotes(z: seq<Byte>, sep: Byte) {
    z == [] || exists i :: 0 <= i < |z| && (NeedCsvQuote(z[i]) || z[i] == sep)
  }

  /** Every quote written twice. */
  function Doubled(z: seq<Byte>): seq<Byte> {
    if z == [] then [] else (if z[0] == QUOTE then [QUOTE, QUOTE] else [z[0]]) + Doubled(z[1..])
  }

  function PrintField(z: seq<Byte>, sep: Byte): seq<Byte> {
    if NeedsQuotes(z, sep) then [QUOTE] + Doubled(z) + [QUOTE] else z
  }

  lemma {:induction false} DoubledGrows(z: seq<Byte>)
    ensures |Doubled(z)| >= |z|
  {
    if z != [] {
      DoubledGrows(z[1..]);
    }
  }

  /**
    Exactly which fields are printed as they are: the nonempty ones made of ASCII characters from ! to ~ other than
    the two quotes and the separator.
  */
  lemma PrintedAsIs(z: seq<Byte>, sep: Byte)
    ensures PrintField(z, sep) == z <==>
      z != [] && forall i :: 0 <= i < |z| ==> 33 <= z[i] <= 126 && z[i] != 34 && z[i] != 39 && z[i] != sep
  {
    DoubledGrows(z);
    if NeedsQuotes(z, sep) {
      assert |PrintField(z, sep)| > |z|;
    }
  }

  /** The fields of the rows with the byte that follows each. */
  function RowCells(row: seq<Text>, sep: Separator): seq<(Text, Byte)> {
    seq(|row|, i requires 0 <= i < |row| => (row[i], if i + 1 < |row| then sep else LF))
  }

  function Cells(rows: seq<seq<Text>>, sep: Separator): seq<(Text, Byte)> {
    if rows == [] then [] else RowCells(rows[0], sep) + Cells(rows[1..], sep)
  }

  function PrintCells(cells: seq<(Text, Byte)>, sep: Byte): seq<Byte> {
    if cells == [] then [] else PrintField(cells[0].0, sep) + [cells[0].1] + PrintCells(cells[1..], sep)
  }

  // ----- Reading -----

  /** A char holds the separator, and a char is signed. */
  function SignedChar(b: Byte): int {
    if b < 128 then b else b - 256
  }

  datatype Field = Field(text: seq<Byte>, term: int, rest: seq<Byte>)

  /** The text before its last quote. */
  function BackUp(z: seq<Byte>): (r: seq<Byte>)
    requires QUOTE in z
    ensures |r| < |z| && r <= z && z[|r|] == QUOTE && QUOTE !in z[|r| + 1..]
  {
    var k := |z| - 1;
    if z[k] == QUOTE then z[..k]
    else
      assert z == z[..k] + [z[k]];
      BackUp(z[..k])
  }

  /** The byte c ends a quoted field after the text z with previous byte pc. */
  predicate Ends(c: Byte, cSep: int, z: seq<Byte>, pc: Byte) {
    || (c == cSep && pc == QUOTE)
    || (c == LF && pc == QUOTE)
    || (c == LF && pc == CR && |z| >= 2 && z[|z| - 2] == QUOTE)
  }

  /** The previous byte is the last one kept, or 0 at the start and after a doubled quote. */
  predicate Previous(z: seq<Byte>, pc: Byte) {
    pc != 0 ==> z != [] && z[|z| - 1] == pc
  }

  function ReadQuoted(input: seq<Byte>, cSep: int, z: seq<Byte>, pc: Byte): (f: Field)
    requires Previous(z, pc)
    ensures |f.rest| <= |input| && (f.term == EOF ==> f.rest == [])
    ensures f.term == cSep || f.term == LF || f.term == EOF
  {
    if input == [] then Field(if pc == QUOTE then BackUp(z) else z, EOF, [])
    else
      var c := input[0];
      if c == QUOTE && pc == QUOTE then ReadQuoted(input[1..], cSep, z, 0)
      else if Ends(c, cSep, z, pc) then Field(BackUp(z), c, input[1..])
      else ReadQuoted(input[1..], cSep, z + [c], c)
  }

  function ReadUnquoted(input: seq<Byte>, cSep: int, z: seq<Byte>): (f: Field)
    ensures |f.rest| <= |input| && (z == [] && input != [] ==> |f.rest| < |input|)
    ensures (f.term == EOF ==> f.rest == []) && (f.term == cSep || f.term == LF || f.term == EOF)
  {
    if input == [] then Field(z, EOF, [])
    else
      var c := input[0];
      if c == LF && |z| > 1 && z[|z| - 1] == CR then Field(z[..|z| - 1], c, input[1..])
      else if c == LF || c == cSep then Field(z, c, input[1..])
      else ReadUnquoted(input[1..], cSep, z + [c])
  }

  /** One field of a nonempty input. */
  function ReadField(input: seq<Byte>, cSep: int): (f: Field)
    requires input != []
    ensures |f.rest| < |input| && (f.term == EOF ==> f.rest == [])
    ensures f.term == cSep || f.term == LF || f.term == EOF
  {
    if input[0] == QUOTE then ReadQuoted(input[1..], cSep, [], 0) else ReadUnquoted(input, cSep, [])
  }

  /** Field after field until the end of the input, each with its terminator. */
  function ReadFields(input: seq<Byte>, cSep: int): seq<(seq<Byte>, int)>
    decreases |input|
  {
    if input == [] then []
    else
      var f := ReadField(input, cSep);
      [(f.text, f.term)] + ReadFields(f.rest, cSep)
  }

  // ----- Reading back what was printed -----

  /** A quote directly followed by CR LF. */
  ghost predicate HasQuoteCrLf(z: seq<Byte>) {
    exists i :: 0 <= i < |z| - 2 && z[i] == QUOTE && z[i + 1] == CR && z[i + 2] == LF
  }

  /** The previous byte after the text z has been read from its doubled form. */
  function PreviousOf(z: seq<Byte>): (pc: Byte)
    ensures Previous(z, pc) && pc != QUOTE
  {
    if z == [] || z[|z| - 1] == QUOTE then 0 else z[|z| - 1]
  }

  lemma QuoteCrLfLast(z: seq<Byte>, c: Byte)
    requires !HasQuoteCrLf(z)
    ensures HasQuoteCrLf(z + [c]) <==> (c == LF && |z| >= 2 && z[|z| - 1] == CR && z[|z| - 2] == QUOTE)
  {
    var s := z + [c];
    if HasQuoteCrLf(s) {
      var i :| 0 <= i < |s| - 2 && s[i] == QUOTE && s[i + 1] == CR && s[i + 2] == LF;
      assert s[..|z|] == z;
    }
    if c == LF && |z| >= 2 && z[|z| - 1] == CR && z[|z| - 2] == QUOTE {
      assert s[|z| - 2] == QUOTE && s[|z| - 2 + 1] == CR && s[|z| - 2 + 2] == LF;
    }
  }

  lemma QuoteCrLfStays(a: seq<Byte>, b: seq<Byte>)
    requires HasQuoteCrLf(a)
    ensures HasQuoteCrLf(a + b)
  {
    var i :| 0 <= i < |a| - 2 && a[i] == QUOTE && a[i + 1] == CR && a[i + 2] == LF;
    var s := a + b;
    assert s[i] == QUOTE && s[i + 1] == CR && s[i + 2] == LF;
  }

  /** One byte of a quoted field's body, written singly or doubled. */
  lemma ReadBodyByte(c: Byte, tail: seq<Byte>, cSep: int, z: seq<Byte>)
    requires c != 0 && !HasQuoteCrLf(z)
    ensures ReadQuoted(Doubled([c]) + tail, cSep, z, PreviousOf(z)) ==
            if HasQuoteCrLf(z + [c]) then Field(BackUp(z), LF, tail)
            else ReadQuoted(tail, cSep, z + [c], PreviousOf(z + [c]))
    ensures HasQuoteCrLf(z + [c]) ==> QUOTE in z
  {
    QuoteCrLfLast(z, c);
    assert Doubled([c]) == if c == QUOTE then [QUOTE, QUOTE] else [c];
    var input := Doubled([c]) + tail;
    if c == QUOTE {
      assert input[1..] == [QUOTE] + tail;
      assert ([QUOTE] + tail)[1..] == tail;
    } else {
      assert input[1..] == tail;
    }
  }

  lemma DoubledFirst(z: seq<Byte>, tail: seq<Byte>)
    requires z != []
    ensures Doubled(z) + tail == Doubled([z[0]]) + (Doubled(z[1..]) + tail)
  {
    assert [z[0]][1..] == [];
  }

  /** The body of a quoted field is read up to its closing quote unless it holds a quote followed by CR LF. */
  lemma {:induction false} ReadBody(z: seq<Byte>, tail: seq<Byte>, cSep: int, done: seq<Byte>)
    requires 0 !in z && !HasQuoteCrLf(done + z)
    ensures ReadQuoted(Doubled(z) + tail, cSep, done, PreviousOf(done)) ==
            ReadQuoted(tail, cSep, done + z, PreviousOf(done + z))
    decreases |z|
  {
    hide ReadQuoted, HasQuoteCrLf, BackUp, PreviousOf;
    if z == [] {
      assert done + z == done && Doubled(z) + tail == tail;
    } else {
      var more, others := done + [z[0]], z[1..];
      assert more + others == done + z;
      if HasQuoteCrLf(more) {
        QuoteCrLfStays(more, others);
      }
      if HasQuoteCrLf(done) {
        QuoteCrLfStays(done, z);
      }
      DoubledFirst(z, tail);
      ReadBodyByte(z[0], Doubled(others) + tail, cSep, done);
      ReadBody(others, tail, cSep, more);
    }
  }

  /** In that case the field is cut short. */
  lemma {:induction false} ReadBrokenBody(z: seq<Byte>, tail: seq<Byte>, cSep: int, done: seq<Byte>)
    requires 0 !in z && !HasQuoteCrLf(done) && HasQuoteCrLf(done + z)
    ensures |ReadQuoted(Doubled(z) + tail, cSep, done, PreviousOf(done)).text| < |done| + |z|
    decreases |z|
  {
    hide ReadQuoted, HasQuoteCrLf, PreviousOf;
    assert z == [] ==> done + z == done;
    var more, others := done + [z[0]], z[1..];
    assert more + others == done + z;
    DoubledFirst(z, tail);
    ReadBodyByte(z[0], Doubled(others) + tail, cSep, done);
    if !HasQuoteCrLf(more) {
      ReadBrokenBody(others, tail, cSep, more);
    }
  }

  /** A quoted field never ends with a quote as its terminator. */
  lemma {:induction false} QuoteNeverTerminates(input: seq<Byte>, cSep: int, z: seq<Byte>, pc: Byte)
    requires Previous(z, pc)
    ensures ReadQuoted(input, cSep, z, pc).term != QUOTE
  {
    if input != [] {
      var c := input[0];
      if c == QUOTE && pc == QUOTE {
        QuoteNeverTerminates(input[1..], cSep, z, 0);
      } else if !Ends(c, cSep, z, pc) {
        QuoteNeverTerminates(input[1..], cSep, z + [c], c);
      }
    }
  }

  /** Backing up does not go behind a kept byte that is followed by a later quote. */
  lemma {:induction false} KeepsBehind(input: seq<Byte>, cSep: int, z: seq<Byte>, pc: Byte, k: nat)
    requires Previous(z, pc) && k < |z| && z[k] !in {QUOTE, CR}
    ensures |ReadQuoted(input, cSep, z, pc).text| > k
    decreases |input|
  {
    if input == [] {
      if pc == QUOTE {
        assert |BackUp(z)| > k;
      }
    } else {
      var c := input[0];
      if c == QUOTE && pc == QUOTE {
        KeepsBehind(input[1..], cSep, z, 0, k);
      } else if Ends(c, cSep, z, pc) {
        assert |BackUp(z)| > k;
      } else {
        KeepsBehind(input[1..], cSep, z + [c], c, k);
      }
    }
  }

  lemma {:induction false} UnquotedKeeps(input: seq<Byte>, cSep: int, z: seq<Byte>, k: nat)
    requires k < |z| && z[k] != CR
    ensures |ReadUnquoted(input, cSep, z).text| > k
    decreases |input|
  {
    if input != [] {
      UnquotedKeeps(input[1..], cSep, z + [input[0]], k);
    }
  }

  lemma {:induction false} ReadPlain(z: seq<Byte>, tail: seq<Byte>, cSep: int, done: seq<Byte>)
    requires forall i :: 0 <= i < |z| ==> z[i] != LF && z[i] != cSep
    ensures ReadUnquoted(z + tail, cSep, done) == ReadUnquoted(tail, cSep, done + z)
    decreases |z|
  {
    if z == [] {
      assert z + tail == tail && done + z == done;
    } else {
      assert (z + tail)[1..] == z[1..] + tail;
      ReadPlain(z[1..], tail, cSep, done + [z[0]]);
      assert done + [z[0]] + z[1..] == done + z;
    }
  }

  /** When a printed field comes back: what a caller can check of the field, its terminator and the separator. */
  ghost predicate ReadsBack(z: seq<Byte>, term: Byte, sep: Byte) {
    && !HasQuoteCrLf(z)
    && (term == LF || (sep < 128 && (sep == QUOTE ==> !NeedsQuotes(z, sep))))
  }

  /** What follows the body: the closing quote and the terminator. */
  lemma ReadClosing(z: Text, term: Byte, sep: Separator, rest: seq<Byte>)
    requires term in {sep, LF}
    ensures var f := ReadQuoted([QUOTE, term] + rest, SignedChar(sep), z, PreviousOf(z));
      if term == LF || (sep < 128 && sep != QUOTE) then f == Field(z, SignedChar(term), rest)
      else f.text != z || f.term != SignedChar(term)
  {
    var cSep := SignedChar(sep);
    var tail := [QUOTE, term] + rest;
    var closed := z + [QUOTE];
    assert tail[1..] == [term] + rest;
    assert ReadQuoted(tail, cSep, z, PreviousOf(z)) == ReadQuoted([term] + rest, cSep, closed, QUOTE);
    assert ([term] + rest)[1..] == rest;
    assert BackUp(closed) == z;
    if term == QUOTE {
      QuoteNeverTerminates(rest, cSep, closed, 0);
    } else if term != LF && sep >= 128 {
      KeepsBehind(rest, cSep, closed + [term], term, |z| + 1);
    }
  }

  lemma QuotedReadsBack(z: Text, term: Byte, sep: Separator, rest: seq<Byte>)
    requires term in {sep, LF} && NeedsQuotes(z, sep)
    ensures var f := ReadQuoted(Doubled(z) + [QUOTE, term] + rest, SignedChar(sep), [], 0);
      if ReadsBack(z, term, sep) then f == Field(z, SignedChar(term), rest)
      else f.text != z || (term != LF && f.term != SignedChar(term))
  {
    hide NeedsQuotes, ReadQuoted;
    var tail := [QUOTE, term] + rest;
    assert Doubled(z) + [QUOTE, term] + rest == Doubled(z) + tail;
    assert !HasQuoteCrLf([]);
    hide HasQuoteCrLf;
    assert [] + z == z;
    if HasQuoteCrLf(z) {
      ReadBrokenBody(z, tail, SignedChar(sep), []);
    } else {
      ReadBody(z, tail, SignedChar(sep), []);
    }
    ReadClosing(z, term, sep, rest);
  }

  lemma PlainBytes(z: seq<Byte>, sep: Byte)
    requires !NeedsQuotes(z, sep)
    ensures z != [] && z[0] != QUOTE && z[|z| - 1] != CR && !HasQuoteCrLf(z)
    ensures forall i :: 0 <= i < |z| ==> z[i] != LF && z[i] != sep && z[i] < 128
  {
  }

  /** How reading an unquoted field goes on with the byte c. */
  lemma ReadUnquotedAt(c: Byte, rest: seq<Byte>, cSep: int, z: seq<Byte>)
    requires z != [] && z[|z| - 1] != CR
    ensures ReadUnquoted([c] + rest, cSep, z) ==
            if c == LF || c == cSep then Field(z, c, rest) else ReadUnquoted(rest, cSep, z + [c])
  {
    assert ([c] + rest)[1..] == rest;
  }

  lemma PlainReadsBack(z: Text, term: Byte, sep: Separator, rest: seq<Byte>)
    requires term in {sep, LF} && !NeedsQuotes(z, sep)
    ensures var f := ReadUnquoted(z + [term] + rest, SignedChar(sep), []);
      if ReadsBack(z, term, sep) then f == Field(z, SignedChar(term), rest)
      else f.text != z || (term != LF && f.term != SignedChar(term))
  {
    hide NeedsQuotes, ReadUnquoted, HasQuoteCrLf;
    var cSep := SignedChar(sep);
    PlainBytes(z, sep);
    assert z + [term] + rest == z + ([term] + rest);
    ReadPlain(z, [term] + rest, cSep, []);
    assert [] + z == z;
    ReadUnquotedAt(term, rest, cSep, z);
    if term != LF && sep >= 128 {
      UnquotedKeeps(rest, cSep, z + [term], |z|);
    }
  }

  lemma PrintedParts(z: seq<Byte>, sep: Byte, term: Byte, rest: seq<Byte>)
    ensures var input := PrintField(z, sep) + [term] + rest;
      && input != []
      && if NeedsQuotes(z, sep) then input[0] == QUOTE && input[1..] == Doubled(z) + [QUOTE, term] + rest
         else input == z + [term] + rest && input[0] == z[0] != QUOTE
  {
    hide NeedsQuotes, Doubled;
    if NeedsQuotes(z, sep) {
      QuotedParts(Doubled(z), term, rest);
    } else {
      PlainBytes(z, sep);
    }
  }

  lemma QuotedParts(d: seq<Byte>, term: Byte, rest: seq<Byte>)
    ensures var input := [QUOTE] + d + [QUOTE] + [term] + rest;
      input[0] == QUOTE && input[1..] == d + [QUOTE, term] + rest
  {
  }

  /**
    A printed field and its terminator are read back, leaving what follows, exactly when the field has no quote
    directly followed by CR LF and the separator is a plain char other than a quote.
  */
  lemma FieldReadsBack(z: Text, term: Byte, sep: Separator, rest: seq<Byte>)
    requires term in {sep, LF}
    ensures var f := ReadField(PrintField(z, sep) + [term] + rest, SignedChar(sep));
      if ReadsBack(z, term, sep) then f == Field(z, SignedChar(term), rest)
      else f.text != z || (term != LF && f.term != SignedChar(term))
  {
    hide NeedsQuotes, Doubled, ReadQuoted, ReadUnquoted, PrintField, ReadsBack, SignedChar;
    PrintedParts(z, sep, term, rest);
    if NeedsQuotes(z, sep) {
      QuotedReadsBack(z, term, sep, rest);
    } else {
      PlainReadsBack(z, term, sep, rest);
    }
  }

  function Expected(cells: seq<(Text, Byte)>): seq<(seq<Byte>, int)> {
    seq(|cells|, i requires 0 <= i < |cells| => (cells[i].0, SignedChar(cells[i].1)))
  }

  ghost predicate AllReadBack(cells: seq<(Text, Byte)>, sep: Separator) {
    forall i :: 0 <= i < |cells| ==> ReadsBack(cells[i].0, cells[i].1, sep)
  }

  lemma CellsSplit(cells: seq<(Text, Byte)>, sep: Separator)
    requires cells != []
    ensures Expected(cells) == [(cells[0].0, SignedChar(cells[0].1))] + Expected(cells[1..])
    ensures AllReadBack(cells, sep) <==> ReadsBack(cells[0].0, cells[0].1, sep) && AllReadBack(cells[1..], sep)
  {
    hide ReadsBack, SignedChar;
    assert cells == [cells[0]] + cells[1..];
  }

  lemma {:induction false} CellsReadBack(cells: seq<(Text, Byte)>, sep: Separator)
    requires forall i :: 0 <= i < |cells| ==> cells[i].1 in {sep, LF}
    ensures ReadFields(PrintCells(cells, sep), SignedChar(sep)) == Expected(cells) <==> AllReadBack(cells, sep)
  {
    hide ReadsBack, PrintField, ReadField, SignedChar;
    if cells != [] {
      var (z, term) := cells[0];
      var rest := PrintCells(cells[1..], sep);
      FieldReadsBack(z, term, sep, rest);
      CellsReadBack(cells[1..], sep);
      CellsSplit(cells, sep);
      hide Expected, AllReadBack;
      var f := ReadField(PrintCells(cells, sep), SignedChar(sep));
      var read := ReadFields(PrintCells(cells, sep), SignedChar(sep));
      assert read == [(f.text, f.term)] + ReadFields(f.rest, SignedChar(sep));
      if ReadsBack(z, term, sep) {
        assert read[1..] == ReadFields(rest, SignedChar(sep));
        assert Expected(cells)[1..] == Expected(cells[1..]);
      } else {
        assert read[0] != Expected(cells)[0];
      }
    }
  }

  // ----- Whole tables -----

  lemma {:induction false} CellTerminators(rows: seq<seq<Text>>, sep: Separator)
    ensures forall i :: 0 <= i < |Cells(rows, sep)| ==> Cells(rows, sep)[i].1 in {sep, LF}
  {
    if rows != [] {
      CellTerminators(rows[1..], sep);
    }
  }

  /**
    A printed table is read back field by field with its terminators, and then the input is at its end, exactly
    when each of its fields reads back.
  */
  lemma TableReadsBack(rows: seq<seq<Text>>, sep: Separator)
    ensures ReadFields(PrintCells(Cells(rows, sep), sep), SignedChar(sep)) == Expected(Cells(rows, sep)) <==>
            AllReadBack(Cells(rows, sep), sep)
  {
    CellTerminators(rows, sep);
    CellsReadBack(Cells(rows, sep), sep);
  }

  /** With a plain separator only a quote directly followed by CR LF spoils a table. */
  lemma {:induction false} PlainSeparator(rows: seq<seq<Text>>, sep: Separator)
    requires sep < 128 && sep != QUOTE
    ensures AllReadBack(Cells(rows, sep), sep) <==>
            forall r, i :: 0 <= r < |rows| && 0 <= i < |rows[r]| ==> !HasQuoteCrLf(rows[r][i])
  {
    if rows != [] {
      PlainSeparator(rows[1..], sep);
      var head, tail := RowCells(rows[0], sep), Cells(rows[1..], sep);
      AllReadBackConcat(head, tail, sep);
      assert AllReadBack(head, sep) <==> forall i :: 0 <= i < |rows[0]| ==> !HasQuoteCrLf(rows[0][i]) by {
        assert forall i :: 0 <= i < |head| ==> head[i].0 == rows[0][i];
      }
      assert forall r :: 0 < r < |rows| ==> rows[r] == rows[1..][r - 1];
    }
  }

  lemma AllReadBackConcat(a: seq<(Text, Byte)>, b: seq<(Text, Byte)>, sep: Separator)
    ensures AllReadBack(a + b, sep) <==> AllReadBack(a, sep) && AllReadBack(b, sep)
  {
    hide ReadsBack;
    assert forall i :: 0 <= i < |a| ==> (a + b)[i] == a[i];
    assert forall i :: 0 <= i < |b| ==> (a + b)[|a| + i] == b[i];
  }
}

/**
  The row loop of the import command in src/sqlite3/shell.c.  A prepared statement's parameters keep their values
  from row to row; inserting a row takes the values they have.
*/
module CsvImport {
  import opened Common
  import opened Csv
  import opened CsvShell

  /** A bound value: the text of a field as a C string, or null. */
  type Value = Option<Text>

  // ----- What the lines of a file hold -----

  /** The fields of a line, null where the reader has no buffer to return, and what ended the last of them. */
  datatype Line = Line(values: seq<Value>, term: int, rest: seq<Byte>)

  /** One call of the reader. */
  function ReadOnce(input: seq<Byte>, cSep: int): (f: Field)
    ensures |f.rest| <= |input| && (f.term == EOF ==> f.rest == []) && (input != [] ==> |f.rest| < |input|)
    ensures f.term == cSep || f.term == LF || f.term == EOF
  {
    if input == [] then Field([], EOF, []) else ReadField(input, cSep)
  }

  /** Whether the reader has a buffer after the call; one that it had before is kept. */
  predicate Buffered(input: seq<Byte>, cSep: int, buffered: bool) {
    buffered || Allocates(input, cSep)
  }

  function ValueRead(input: seq<Byte>, cSep: int, buffered: bool): Value {
    if input != [] && Buffered(input, cSep, buffered) then Some(UpToNul(ReadOnce(input, cSep).text)) else None
  }

  /** Up to `room` fields, the last one not followed by the separator or the room used up. */
  function ReadLine(input: seq<Byte>, cSep: int, room: nat, buffered: bool): (l: Line)
    requires room > 0
    ensures 0 < |l.values| <= room && (|l.values| < room ==> l.term != cSep)
    ensures |l.rest| <= |input| && (l.term == EOF ==> l.rest == []) && (input != [] ==> |l.rest| < |input|)
    ensures l.term == cSep || l.term == LF || l.term == EOF
    ensures l.values[0] == ValueRead(input, cSep, buffered)
    decreases room
  {
    var f := ReadOnce(input, cSep);
    var value := ValueRead(input, cSep, buffered);
    if room == 1 || f.term != cSep then Line([value], f.term, f.rest)
    else
      var more := ReadLine(f.rest, cSep, room - 1, Buffered(input, cSep, buffered));
      Line([value] + more.values, more.term, more.rest)
  }

  /** Where a line stands: the column counter, the last terminator, and what the stream still holds. */
  datatype Tail = Tail(counter: nat, term: int, rest: seq<Byte>)

  /** The fields up to the first one that is not followed by the separator. */
  function Extras(input: seq<Byte>, cSep: int): (t: Tail)
    requires cSep != EOF
    ensures t.counter > 0 && |t.rest| <= |input| && (t.term == LF || (t.term == EOF && t.rest == [])) && t.term != cSep
    decreases |input|
  {
    var f := ReadOnce(input, cSep);
    if f.term == cSep then
      var t := Extras(f.rest, cSep);
      t.(counter := t.counter + 1)
    else Tail(1, f.term, f.rest)
  }

  /**
    The parameters after a line.  A missing field leaves the last field read, and every later one but the last
    parameter, null; the last parameter keeps what the row before had.
  */
  function BoundBy(values: seq<Value>, before: seq<Value>): (bound: seq<Value>)
    requires 0 < |values| <= |before|
    ensures |bound| == |before|
  {
    var k, nCol := |values|, |before|;
    if k == nCol then values
    else
      seq(nCol, i requires 0 <= i < nCol =>
        if i < k - 1 then values[i] else if i < nCol - 1 then None else before[i])
  }

  /** What the message about missing columns promises: the fields are kept and the rest is filled with nulls. */
  ghost predicate Filled(bound: seq<Value>, values: seq<Value>) {
    && |values| <= |bound| && bound[..|values|] == values
    && forall i :: |values| <= i < |bound| ==> bound[i] == None
  }

  /**
    Exactly when the promise is kept: no column is missing, or the last field was null anyway and so was the last
    parameter in the row before.
  */
  lemma FilledExactly(values: seq<Value>, before: seq<Value>)
    requires 0 < |values| <= |before|
    ensures var k, nCol := |values|, |before|;
      Filled(BoundBy(values, before), values) <==> k == nCol || (values[k - 1] == None && before[nCol - 1] == None)
  {
    var k, nCol, bound := |values|, |before|, BoundBy(values, before);
    if k < nCol {
      assert bound[k - 1] == None && bound[nCol - 1] == before[nCol - 1];
      assert bound[..k][k - 1] == bound[k - 1];
      assert values[k - 1] == None ==> bound[..k] == values;
    }
  }

  /**
    What the column loop leaves.  A null first field ends it at once; the message about missing columns is followed
    by counting past the last one.
  */
  function ColumnsOf(input: seq<Byte>, cSep: int, before: seq<Value>, buffered: bool): (r: (seq<Value>, Tail))
    requires 0 < |before|
    ensures |r.0| == |before|
  {
    var l := ReadLine(input, cSep, |before|, buffered);
    if l.values[0] == None then
      var f := ReadOnce(input, cSep);
      (before, Tail(0, f.term, f.rest))
    else
      var k, nCol := |l.values|, |before|;
      (BoundBy(l.values, before), Tail(if k == nCol then nCol else nCol + 1, l.term, l.rest))
  }

  /** A whole line; the row is inserted if the counter has reached the number of columns. */
  function RowOf(input: seq<Byte>, cSep: int, before: seq<Value>, buffered: bool): (r: (seq<Value>, Tail))
    requires 0 < |before| && cSep != EOF
    ensures |r.0| == |before| && r.1.term != cSep && (r.1.term == LF || (r.1.term == EOF && r.1.rest == []))
    ensures r.1.term != EOF ==> |r.1.rest| < |input|
    ensures input == [] ==> r.1 == Tail(0, EOF, [])
  {
    var (bound, t) := ColumnsOf(input, cSep, before, buffered);
    if t.term == cSep then
      var e := Extras(t.rest, cSep);
      (bound, e.(counter := t.counter + e.counter))
    else (bound, t)
  }

  // ----- The loops -----

  /** One field, and the value to bind for it. */
  method NextValue(reader: CSVReader) returns (value: Value)
    requires reader.Valid()
    modifies reader, reader.z
    ensures reader.Valid() && (reader.z == old(reader.z) || fresh(reader.z))
    ensures value == ValueRead(old(reader.input), reader.cSeparator, old(reader.z != null))
    ensures var f := ReadOnce(old(reader.input), reader.cSeparator);
      reader.cTerm == f.term && reader.input == f.rest
    ensures reader.z != null <==> Buffered(old(reader.input), reader.cSeparator, old(reader.z != null))
  {
    hide ReadField, Allocates;
    var found := reader.ReadOneField();
    value := if found then Some(UpToNul(reader.z[..reader.n])) else None;
  }

  /** sqlite3_bind_null for the missing columns, as the code counts them. */
  method BindNulls(bound: seq<Value>, from: nat) returns (filled: seq<Value>)
    requires 0 < from < |bound|
    ensures |filled| == |bound| && filled[|bound| - 1] == bound[|bound| - 1]
    ensures forall k :: 0 <= k < from - 1 ==> filled[k] == bound[k]
    ensures forall k :: from - 1 <= k < |bound| - 1 ==> filled[k] == None
  {
    filled := bound;
    for i := from to |bound|
      invariant |filled| == |bound|
      invariant forall k :: 0 <= k < from - 1 || i - 1 <= k < |bound| ==> filled[k] == bound[k]
      invariant forall k :: from - 1 <= k < i - 1 ==> filled[k] == None
    {
      filled := filled[i - 1 := None];
    }
  }

  /** The column loop has come to `next`, and what is left of the line starts here. */
  ghost predicate Columns(line: Line, before: seq<Value>, bound: seq<Value>, next: nat, left: Line) {
    && next < |bound| == |before| && bound[next..] == before[next..]
    && line == left.(values := bound[..next] + left.values)
  }

  lemma ReadLineStep(input: seq<Byte>, cSep: int, room: nat, buffered: bool)
    requires room > 0
    ensures var l, f := ReadLine(input, cSep, room, buffered), ReadOnce(input, cSep);
      var v := ValueRead(input, cSep, buffered);
      if room == 1 || f.term != cSep then l == Line([v], f.term, f.rest)
      else var more := ReadLine(f.rest, cSep, room - 1, Buffered(input, cSep, buffered));
        l == more.(values := [v] + more.values)
  {
  }

  lemma ColumnsEnd(line: Line, before: seq<Value>, bound: seq<Value>, next: nat, left: Line, v: Value,
                   after: seq<Value>)
    requires Columns(line, before, bound, next, left) && left.values == [v]
    requires |after| == |before| && (forall k :: 0 <= k < next ==> after[k] == bound[k])
    requires next == |before| - 1 ==> after[next] == v
    requires next < |before| - 1 ==> after[|before| - 1] == bound[|before| - 1]
    requires forall k :: next <= k < |before| - 1 ==> after[k] == None
    ensures 0 < |line.values| <= |before| && after == BoundBy(line.values, before)
    ensures |line.values| == next + 1 && line.term == left.term && line.rest == left.rest
  {
    assert bound[next..][|before| - 1 - next] == bound[|before| - 1];
    assert before[next..][|before| - 1 - next] == before[|before| - 1];
  }

  lemma ColumnsGoOn(line: Line, before: seq<Value>, bound: seq<Value>, next: nat, left: Line, v: Value, more: Line)
    requires Columns(line, before, bound, next, left) && next + 1 < |bound|
    requires left == more.(values := [v] + more.values)
    ensures Columns(line, before, bound[next := v], next + 1, more)
  {
    var after := bound[next := v];
    assert after[..next + 1] == bound[..next] + [v];
    assert after[next + 1..] == bound[next..][1..] && before[next + 1..] == before[next..][1..];
  }

  /** One round of the column loop after its field has been read; `goesOn` is whether the separator followed it. */
  method BindColumn(bound: seq<Value>, next: nat, value: Value, goesOn: bool,
                    ghost line: Line, ghost before: seq<Value>, ghost left: Line, ghost more: Line)
      returns (after: seq<Value>, to: nat)
    requires Columns(line, before, bound, next, left) && next < |bound|
    requires if next + 1 == |bound| || !goesOn then left.values == [value]
             else left == more.(values := [value] + more.values)
    ensures |after| == |bound|
    ensures next + 1 == |bound| || !goesOn ==>
      && 0 < |line.values| <= |before| && after == BoundBy(line.values, before)
      && line.term == left.term && line.rest == left.rest
      && to == if |line.values| == |bound| then |bound| else |bound| + 1
    ensures next + 1 < |bound| && goesOn ==> to == next + 1 && Columns(line, before, after, to, more)
    ensures next == 0 ==> line.values != [] && line.values[0] == value
  {
    hide BoundBy;
    after, to := bound[next := value], next;
    if next < |bound| - 1 && !goesOn {
      after := BindNulls(after, next + 1);
      ColumnsEnd(line, before, bound, next, left, value, after);
      to := |bound|;
    } else if next == |bound| - 1 {
      ColumnsEnd(line, before, bound, next, left, value, after);
    } else {
      ColumnsGoOn(line, before, bound, next, left, value, more);
    }
    to := to + 1;
  }

  /** The column loop: `next` is how far the column counter got. */
  method ReadColumns(reader: CSVReader, before: seq<Value>) returns (bound: seq<Value>, next: nat)
    requires reader.Valid() && 0 < |before|
    modifies reader, reader.z
    ensures reader.Valid() && (reader.z == old(reader.z) || fresh(reader.z))
    ensures (bound, Tail(next, reader.cTerm, reader.input)) ==
            ColumnsOf(old(reader.input), reader.cSeparator, before, old(reader.z != null))
  {
    hide ReadLine, ReadOnce, ValueRead, BoundBy, Columns, Buffered;
    var nCol := |before|;
    ghost var line := ReadLine(reader.input, reader.cSeparator, nCol, reader.z != null);
    bound := before;
    next := 0;
    ghost var left := line;
    ColumnsStart(line, before);
    while next < nCol
      invariant reader.Valid() && |bound| == nCol && (reader.z == old(reader.z) || fresh(reader.z))
      invariant next < nCol ==> Columns(line, before, bound, next, left)
      invariant next < nCol ==> left == ReadLine(reader.input, reader.cSeparator, nCol - next, reader.z != null)
      invariant next > 0 ==> line.values[0] != None
      invariant next == 0 ==> reader.input == old(reader.input) && reader.z == old(reader.z) && bound == before
      invariant next >= nCol ==>
        && bound == BoundBy(line.values, before) && reader.cTerm == line.term && reader.input == line.rest
        && next == if |line.values| == nCol then nCol else nCol + 1
      decreases nCol - next
    {
      ReadLineStep(reader.input, reader.cSeparator, nCol - next, reader.z != null);
      var value := NextValue(reader);
      if value == None && next == 0 {
        return;
      }
      ghost var more := left;
      if next + 1 < nCol {
        more := ReadLine(reader.input, reader.cSeparator, nCol - next - 1, reader.z != null);
      }
      bound, next := BindColumn(bound, next, value, reader.cTerm == reader.cSeparator, line, before, left, more);
      left := more;
    }
  }

  lemma ColumnsStart(line: Line, before: seq<Value>)
    requires 0 < |before|
    ensures Columns(line, before, before, 0, line)
  {
    assert before[..0] + line.values == line.values;
  }

  /** Fields beyond the last column are read and dropped. */
  method SkipExtras(reader: CSVReader, from: nat) returns (next: nat)
    requires reader.Valid() && reader.cSeparator != EOF
    modifies reader, reader.z
    ensures reader.Valid() && (reader.z == old(reader.z) || fresh(reader.z))
    ensures next >= from
    ensures Tail(next - from, reader.cTerm, reader.input) == Extras(old(reader.input), reader.cSeparator)
  {
    hide ReadOnce;
    next := from;
    while true
      invariant reader.Valid() && next >= from && (reader.z == old(reader.z) || fresh(reader.z))
      invariant var t := Extras(reader.input, reader.cSeparator);
        t.(counter := t.counter + next - from) == Extras(old(reader.input), reader.cSeparator)
      decreases |reader.input|
    {
      var _ := NextValue(reader);
      next := next + 1;
      if reader.cTerm != reader.cSeparator {
        break;
      }
    }
  }

  /** One line: its fields are bound to as many columns as there are, and extra ones skipped. */
  method ReadRow(reader: CSVReader, before: seq<Value>) returns (bound: seq<Value>, next: nat)
    requires reader.Valid() && 0 < |before| && reader.cSeparator != EOF
    modifies reader, reader.z
    ensures reader.Valid() && (reader.z == old(reader.z) || fresh(reader.z))
    ensures (bound, Tail(next, reader.cTerm, reader.input)) ==
            RowOf(old(reader.input), reader.cSeparator, before, old(reader.z != null))
  {
    hide ColumnsOf, Extras;
    bound, next := ReadColumns(reader, before);
    if reader.cTerm == reader.cSeparator {
      next := SkipExtras(reader, next);
    }
  }

  // ----- A separator of byte 255 is the end of the file -----

  /** The loop over extra fields, for so many rounds. */
  method SkipRounds(reader: CSVReader, rounds: nat) returns (ended: bool)
    requires reader.Valid()
    modifies reader, reader.z
    ensures reader.Valid() && (reader.z == old(reader.z) || fresh(reader.z))
    ensures |reader.input| <= |old(reader.input)|
    ensures reader.cSeparator == EOF && old(reader.input) == [] ==> !ended
    ensures reader.cSeparator != EOF && rounds > |old(reader.input)| ==> ended
  {
    for i := 0 to rounds
      invariant reader.Valid() && (reader.z == old(reader.z) || fresh(reader.z))
      invariant |reader.input| <= |old(reader.input)|
      invariant reader.cSeparator != EOF ==> |reader.input| + i <= |old(reader.input)|
    {
      var _ := NextValue(reader);
      if reader.cTerm != reader.cSeparator {
        return true;
      }
    }
    return false;
  }

  /**
    The import with at most so many rounds of each loop over extra fields.  With the separator that a signed char
    makes equal to EOF, no number of rounds is enough: whatever the file, the import does not end.  With any other
    one, as many rounds as the file has bytes, and one more, are always enough.
  */
  method ImportRounds(reader: CSVReader, nCol: nat, rounds: nat) returns (ended: bool)
    requires reader.Valid() && 0 < nCol
    modifies reader, reader.z
    ensures reader.cSeparator == EOF ==> !ended
    ensures reader.cSeparator != EOF && rounds > |old(reader.input)| ==> ended
  {
    hide ReadField, Allocates, BoundBy;
    var bound: seq<Value> := seq(nCol, _ => None);
    while true
      invariant reader.Valid() && |bound| == nCol && (reader.z == old(reader.z) || fresh(reader.z))
      invariant |reader.input| <= |old(reader.input)|
      decreases |reader.input|
    {
      var next;
      bound, next := ReadColumns(reader, bound);
      if reader.cTerm == reader.cSeparator {
        ended := SkipRounds(reader, rounds);
        if !ended {
          return;
        }
      }
      if reader.cTerm == EOF {
        return true;
      }
    }
  }

  // ----- Printed tables -----

  function Values(row: seq<Text>): (values: seq<Value>)
    ensures |values| == |row|
  {
    seq(|row|, i requires 0 <= i < |row| => Some(row[i]))
  }

  function TableValues(rows: seq<seq<Text>>): (values: seq<seq<Value>>)
    ensures |values| == |rows|
  {
    seq(|rows|, i requires 0 <= i < |rows| => Values(rows[i]))
  }

  /** From the i-th field on the line has too few fields or a wrong one. */
  ghost predicate Spoiled(values: seq<Value>, row: seq<Text>, i: nat)
    requires i <= |row|
  {
    |values| < |row| - i || exists j :: 0 <= j < |values| && i + j < |row| && values[j] != Some(row[i + j])
  }

  lemma SpoiledLater(v: Value, values: seq<Value>, row: seq<Text>, i: nat)
    requires i < |row| && Spoiled(values, row, i + 1)
    ensures Spoiled([v] + values, row, i)
  {
    if |values| >= |row| - i - 1 {
      var j :| 0 <= j < |values| && i + 1 + j < |row| && values[j] != Some(row[i + 1 + j]);
      assert ([v] + values)[j + 1] == values[j];
    }
  }

  lemma CellsFrom(row: seq<Text>, sep: Separator, i: nat)
    requires i < |row|
    ensures var cells := RowCells(row, sep);
      && cells[i..][0] == cells[i] && cells[i..][1..] == cells[i + 1..]
      && PrintCells(cells[i..], sep) == PrintField(cells[i].0, sep) + [cells[i].1] + PrintCells(cells[i + 1..], sep)
      && (AllReadBack(cells[i..], sep) <==> ReadsBack(cells[i].0, cells[i].1, sep) && AllReadBack(cells[i + 1..], sep))
  {
    var cells := RowCells(row, sep);
    assert cells[i..][0] == cells[i] && cells[i..][1..] == cells[i + 1..];
    CellsSplit(cells[i..], sep);
  }

  lemma {:induction false} ReadQuotedNoNul(input: seq<Byte>, cSep: int, z: seq<Byte>, pc: Byte)
    requires 0 !in input && 0 !in z && Previous(z, pc)
    ensures 0 !in ReadQuoted(input, cSep, z, pc).text
  {
    if input != [] {
      var c := input[0];
      if c == QUOTE && pc == QUOTE {
        ReadQuotedNoNul(input[1..], cSep, z, 0);
      } else if !Ends(c, cSep, z, pc) {
        ReadQuotedNoNul(input[1..], cSep, z + [c], c);
      }
    }
  }

  lemma {:induction false} ReadUnquotedNoNul(input: seq<Byte>, cSep: int, z: seq<Byte>)
    requires 0 !in input && 0 !in z
    ensures 0 !in ReadUnquoted(input, cSep, z).text
    decreases |input|
  {
    if input != [] {
      ReadUnquotedNoNul(input[1..], cSep, z + [input[0]]);
    }
  }

  lemma ReadOnceNoNul(input: seq<Byte>, cSep: int)
    requires 0 !in input
    ensures 0 !in ReadOnce(input, cSep).text && UpToNul(ReadOnce(input, cSep).text) == ReadOnce(input, cSep).text
  {
    hide ReadQuoted, ReadUnquoted;
    if input != [] && input[0] == QUOTE {
      PreviousAtStart();
      ReadQuotedNoNul(input[1..], cSep, [], 0);
    } else if input != [] {
      ReadUnquotedNoNul(input, cSep, []);
    }
  }

  lemma {:induction false} DoubledNoNul(z: seq<Byte>)
    requires 0 !in z
    ensures 0 !in Doubled(z)
  {
    if z != [] {
      DoubledNoNul(z[1..]);
    }
  }

  lemma {:induction false} PrintedNoNul(cells: seq<(Text, Byte)>, sep: Separator)
    requires forall i :: 0 <= i < |cells| ==> cells[i].1 in {sep, LF}
    ensures 0 !in PrintCells(cells, sep)
  {
    if cells != [] {
      DoubledNoNul(cells[0].0);
      PrintedNoNul(cells[1..], sep);
    }
  }

  /**
    A printed row, from its i-th field on: the line that is read has its fields and ends with it if they read back,
    and otherwise it is spoiled.
  */
  lemma {:induction false} PrintedLine(row: seq<Text>, i: nat, sep: Separator, rest: seq<Byte>, buffered: bool)
    requires i < |row| && 0 !in rest
    ensures var l := ReadLine(PrintCells(RowCells(row, sep)[i..], sep) + rest, SignedChar(sep), |row| - i, buffered);
      && l.values[0] != None
      && if AllReadBack(RowCells(row, sep)[i..], sep) then l == Line(Values(row)[i..], LF, rest)
         else Spoiled(l.values, row, i)
    decreases |row| - i
  {
    hide PrintField, ReadField, ReadsBack, ReadLine, PrintCells, AllReadBack, RowCells, SignedChar;
    var cSep, room := SignedChar(sep), |row| - i;
    var cells := RowCells(row, sep);
    CellsFrom(row, sep, i);
    CellOf(row, sep, i);
    var (z, term) := cells[i];
    var more := PrintCells(cells[i + 1..], sep) + rest;
    var input := PrintCells(cells[i..], sep) + rest;
    assert input == PrintField(z, sep) + [term] + more;
    FieldReadsBack(z, term, sep, more);
    PrintedFieldAllocates(z, term, sep, more);
    ReadLineStep(input, cSep, room, buffered);
    SignedOf(sep);
    var f := ReadOnce(input, cSep);
    RowNoNul(row, i, sep, rest);
    ReadOnceNoNul(input, cSep);
    if ReadsBack(z, term, sep) {
      if room == 1 {
        assert cells[i + 1..] == [];
        NoCells(sep);
        assert Values(row)[i..] == [Some(z)];
      } else {
        PrintedLine(row, i + 1, sep, rest, Buffered(input, cSep, buffered));
        assert Values(row)[i..] == [Some(z)] + Values(row)[i + 1..];
        if !AllReadBack(cells[i + 1..], sep) {
          var l := ReadLine(f.rest, cSep, room - 1, Buffered(input, cSep, buffered));
          SpoiledLater(Some(f.text), l.values, row, i);
        }
      }
    } else if f.text == z {
      assert room > 1 && f.term != cSep;
    } else {
      assert ReadLine(input, cSep, room, buffered).values[0] == Some(f.text) != Some(row[i + 0]);
    }
  }

  lemma RowNoNul(row: seq<Text>, i: nat, sep: Separator, rest: seq<Byte>)
    requires i <= |row| && 0 !in rest
    ensures 0 !in PrintCells(RowCells(row, sep)[i..], sep) + rest
  {
    PrintedNoNul(RowCells(row, sep)[i..], sep);
  }

  lemma CellOf(row: seq<Text>, sep: Separator, i: nat)
    requires i < |row|
    ensures |RowCells(row, sep)| == |row|
    ensures RowCells(row, sep)[i] == (row[i], if i + 1 < |row| then sep else LF)
  {
  }

  lemma SignedOf(sep: Separator)
    ensures SignedChar(LF) == LF
    ensures SignedChar(sep) == LF <==> sep == LF
    ensures SignedChar(sep) == EOF <==> sep == 255
  {
  }

  lemma NoCells(sep: Separator)
    ensures PrintCells([], sep) == [] && AllReadBack([], sep)
  {
  }

  /** A field of a printed row that reads back: its value, what ends it, and what is left of the row. */
  lemma NextCell(row: seq<Text>, i: nat, sep: Separator, rest: seq<Byte>, buffered: bool)
    requires i < |row| && 0 !in rest && AllReadBack(RowCells(row, sep)[i..], sep)
    ensures var input := PrintCells(RowCells(row, sep)[i..], sep) + rest;
      var f := ReadOnce(input, SignedChar(sep));
      && ValueRead(input, SignedChar(sep), buffered) == Some(row[i])
      && f.term == (if i + 1 < |row| then SignedChar(sep) else LF)
      && f.rest == PrintCells(RowCells(row, sep)[i + 1..], sep) + rest
    ensures AllReadBack(RowCells(row, sep)[i + 1..], sep)
  {
    hide PrintField, ReadField, ReadsBack, PrintCells, AllReadBack, RowCells, SignedChar;
    CellsFrom(row, sep, i);
    CellOf(row, sep, i);
    var (z, term) := RowCells(row, sep)[i];
    var more := PrintCells(RowCells(row, sep)[i + 1..], sep) + rest;
    var input := PrintCells(RowCells(row, sep)[i..], sep) + rest;
    assert input == PrintField(z, sep) + [term] + more;
    FieldReadsBack(z, term, sep, more);
    PrintedFieldAllocates(z, term, sep, more);
    SignedOf(sep);
    RowNoNul(row, i, sep, rest);
    ReadOnceNoNul(input, SignedChar(sep));
  }

  /** A printed row of more fields than there are columns: the columns get the first ones. */
  lemma {:induction false} LongLine(row: seq<Text>, i: nat, room: nat, sep: Separator, rest: seq<Byte>, buffered: bool)
    requires 0 < room < |row| - i && 0 !in rest && AllReadBack(RowCells(row, sep)[i..], sep)
    ensures ReadLine(PrintCells(RowCells(row, sep)[i..], sep) + rest, SignedChar(sep), room, buffered) ==
            Line(Values(row)[i..i + room], SignedChar(sep), PrintCells(RowCells(row, sep)[i + room..], sep) + rest)
    ensures AllReadBack(RowCells(row, sep)[i + room..], sep)
    decreases room
  {
    hide ReadLine, PrintCells, AllReadBack, RowCells, SignedChar, ReadOnce, ValueRead;
    CellOf(row, sep, i);
    var input := PrintCells(RowCells(row, sep)[i..], sep) + rest;
    NextCell(row, i, sep, rest, buffered);
    ReadLineStep(input, SignedChar(sep), room, buffered);
    assert Values(row)[i..i + room] == [Some(row[i])] + Values(row)[i + 1..i + room];
    if room > 1 {
      LongLine(row, i + 1, room - 1, sep, rest, Buffered(input, SignedChar(sep), buffered));
    }
  }

  /** And the others are skipped, up to the end of the row. */
  lemma {:induction false} ExtrasOfRow(row: seq<Text>, i: nat, sep: Separator, rest: seq<Byte>)
    requires i < |row| && 0 !in rest && AllReadBack(RowCells(row, sep)[i..], sep) && sep != LF && sep != 255
    ensures Extras(PrintCells(RowCells(row, sep)[i..], sep) + rest, SignedChar(sep)) == Tail(|row| - i, LF, rest)
    decreases |row| - i
  {
    hide PrintCells, AllReadBack, RowCells, SignedChar, ReadOnce;
    SignedOf(sep);
    CellOf(row, sep, i);
    NextCell(row, i, sep, rest, false);
    if i + 1 < |row| {
      ExtrasOfRow(row, i + 1, sep, rest);
    } else {
      assert RowCells(row, sep)[i + 1..] == [];
      NoCells(sep);
    }
  }

  /** Extras ignored: a row of too many fields that read back fills the columns, and the next row starts behind it. */
  lemma ExtrasIgnored(row: seq<Text>, sep: Separator, rest: seq<Byte>, before: seq<Value>, buffered: bool)
    requires 0 < |before| < |row| && 0 !in rest && AllReadBack(RowCells(row, sep), sep) && sep != LF && sep != 255
    ensures RowOf(PrintRow(row, sep) + rest, SignedChar(sep), before, buffered) ==
            (Values(row)[..|before|], Tail(|row|, LF, rest))
  {
    hide ReadLine, PrintCells, AllReadBack, RowCells, SignedChar, Extras;
    SignedOf(sep);
    CellOf(row, sep, 0);
    assert RowCells(row, sep)[0..] == RowCells(row, sep);
    LongLine(row, 0, |before|, sep, rest, buffered);
    ExtrasOfRow(row, |before|, sep, rest);
    assert Values(row)[0..0 + |before|] == Values(row)[..|before|];
  }

  /** A line that has ended does not depend on how much room there was left. */
  lemma {:induction false} MoreRoom(input: seq<Byte>, cSep: int, room: nat, more: nat, buffered: bool)
    requires 0 < room <= more && ReadLine(input, cSep, room, buffered).term != cSep
    ensures ReadLine(input, cSep, more, buffered) == ReadLine(input, cSep, room, buffered)
    decreases room
  {
    hide ReadOnce, ValueRead;
    var f := ReadOnce(input, cSep);
    if room > 1 && f.term == cSep {
      MoreRoom(f.rest, cSep, room - 1, more - 1, Buffered(input, cSep, buffered));
    }
  }

  /** Missing columns: a row of too few fields is never filled up as the message says; it loses its last field. */
  lemma ShortRow(row: seq<Text>, sep: Separator, rest: seq<Byte>, before: seq<Value>, buffered: bool)
    requires 0 < |row| < |before| && 0 !in rest && AllReadBack(RowCells(row, sep), sep) && sep != LF && sep != 255
    ensures RowOf(PrintRow(row, sep) + rest, SignedChar(sep), before, buffered) ==
            (BoundBy(Values(row), before), Tail(|before| + 1, LF, rest))
    ensures !Filled(BoundBy(Values(row), before), Values(row))
  {
    hide ReadLine, PrintCells, AllReadBack, RowCells, SignedChar, BoundBy, Filled, Spoiled;
    SignedOf(sep);
    CellOf(row, sep, 0);
    assert RowCells(row, sep)[0..] == RowCells(row, sep) && Values(row)[0..] == Values(row);
    PrintedLine(row, 0, sep, rest, buffered);
    MoreRoom(PrintRow(row, sep) + rest, SignedChar(sep), |row|, |before|, buffered);
    FilledExactly(Values(row), before);
  }

  /** A spoiled line never gives the row, whatever the row before was. */
  lemma SpoiledRow(values: seq<Value>, row: seq<Text>, before: seq<Value>)
    requires 0 < |values| <= |before| == |row| && Spoiled(values, row, 0)
    ensures BoundBy(values, before) != Values(row)
  {
    var bound := BoundBy(values, before);
    if |values| < |row| {
      assert bound[|values| - 1] == None;
    }
  }

  // ----- Importing a printed table -----

  /** A printed table arrives whole exactly when this holds of it. */
  ghost predicate Portable(rows: seq<seq<Text>>, sep: Separator) {
    AllReadBack(Cells(rows, sep), sep) && (sep != LF || |rows| <= 1)
  }

  /** So far the rows have arrived, and the others lie ahead. */
  ghost predicate OnTrack(rows: seq<seq<Text>>, sep: Separator, inserted: seq<seq<Value>>, input: seq<Byte>) {
    && |inserted| <= |rows| && inserted == TableValues(rows[..|inserted|])
    && input == PrintTable(rows[|inserted|..], sep)
    && (AllReadBack(Cells(rows, sep), sep) <==> AllReadBack(Cells(rows[|inserted|..], sep), sep))
    && (sep == LF ==> inserted == [])
  }

  /** Some row has arrived changed. */
  ghost predicate Changed(rows: seq<seq<Text>>, inserted: seq<seq<Value>>) {
    exists r :: 0 <= r < |inserted| && r < |rows| && inserted[r] != Values(rows[r])
  }

  ghost predicate Underway(rows: seq<seq<Text>>, sep: Separator, inserted: seq<seq<Value>>, input: seq<Byte>) {
    OnTrack(rows, sep, inserted, input) || (!Portable(rows, sep) && Changed(rows, inserted))
  }

  lemma ChangedStays(rows: seq<seq<Text>>, inserted: seq<seq<Value>>, more: seq<seq<Value>>)
    requires Changed(rows, inserted)
    ensures Changed(rows, inserted + more) && inserted != TableValues(rows)
  {
    var r :| 0 <= r < |inserted| && r < |rows| && inserted[r] != Values(rows[r]);
    assert (inserted + more)[r] == inserted[r];
  }

  lemma StartUnderway(rows: seq<seq<Text>>, sep: Separator)
    ensures Underway(rows, sep, [], PrintTable(rows, sep))
  {
    assert rows[0..] == rows;
  }

  lemma EndOfTrack(rows: seq<seq<Text>>, sep: Separator, inserted: seq<seq<Value>>, input: seq<Byte>)
    requires OnTrack(rows, sep, inserted, input) && |inserted| == |rows|
    ensures input == [] && inserted == TableValues(rows) && Portable(rows, sep)
  {
    assert rows[..|rows|] == rows && rows[|rows|..] == [];
  }

  /** The next row lies ahead, and then the others. */
  lemma NextRow(rows: seq<seq<Text>>, sep: Separator, r: nat)
    requires r < |rows|
    ensures PrintTable(rows[r..], sep) == PrintCells(RowCells(rows[r], sep), sep) + PrintTable(rows[r + 1..], sep)
    ensures AllReadBack(Cells(rows[r..], sep), sep) <==>
            AllReadBack(RowCells(rows[r], sep), sep) && AllReadBack(Cells(rows[r + 1..], sep), sep)
    ensures TableValues(rows[..r + 1]) == TableValues(rows[..r]) + [Values(rows[r])]
    ensures 0 !in PrintTable(rows[r + 1..], sep)
  {
    hide PrintCells, AllReadBack, RowCells, Values;
    assert rows[r..][0] == rows[r] && rows[r..][1..] == rows[r + 1..];
    PrintCellsConcat(RowCells(rows[r], sep), Cells(rows[r + 1..], sep), sep);
    AllReadBackConcat(RowCells(rows[r], sep), Cells(rows[r + 1..], sep), sep);
    CellTerminators(rows[r + 1..], sep);
    PrintedNoNul(Cells(rows[r + 1..], sep), sep);
  }

  /** One round of the loop while another row lies ahead. */
  lemma RowArrives(rows: seq<seq<Text>>, sep: Separator, inserted: seq<seq<Value>>, input: seq<Byte>,
                   before: seq<Value>, buffered: bool)
    requires OnTrack(rows, sep, inserted, input) && |inserted| < |rows|
    requires 0 < |before| == |rows[|inserted|]| && sep != 255
    ensures var (bound, t) := RowOf(input, SignedChar(sep), before, buffered);
      && t.counter >= |before|
      && if t.term == EOF then inserted + [bound] == TableValues(rows) <==> Portable(rows, sep)
         else Underway(rows, sep, inserted + [bound], t.rest)
  {
    hide ReadLine, PrintCells, AllReadBack, Cells, RowCells, Values, BoundBy, Spoiled, SignedChar, PrintTable;
    var row, d := rows[|inserted|], |inserted|;
    var rest := PrintTable(rows[d + 1..], sep);
    NextRow(rows, sep, d);
    assert RowCells(row, sep)[0..] == RowCells(row, sep) && Values(row)[0..] == Values(row);
    PrintedLine(row, 0, sep, rest, buffered);
    SignedOf(sep);
    var l := ReadLine(input, SignedChar(sep), |before|, buffered);
    var (bound, t) := RowOf(input, SignedChar(sep), before, buffered);
    if AllReadBack(RowCells(row, sep), sep) {
      WholeRow(row, before);
      assert inserted + [bound] == TableValues(rows[..d + 1]);
      if t.term == EOF {
        assert sep == LF && d == 0;
        if |rows| == 1 {
          assert rows[..1] == rows;
          NoneLeft(rows, sep);
        }
      }
    } else {
      SpoiledRow(l.values, row, before);
      assert (inserted + [bound])[d] != Values(rows[d]);
      ChangedStays(rows, inserted + [bound], []);
    }
  }

  lemma WholeRow(row: seq<Text>, before: seq<Value>)
    requires 0 < |before| == |row|
    ensures BoundBy(Values(row), before) == Values(row)
  {
  }

  lemma RoundDone(rows: seq<seq<Text>>, sep: Separator, inserted: seq<seq<Value>>, input: seq<Byte>,
                  before: seq<Value>, buffered: bool)
    requires Underway(rows, sep, inserted, input) && sep != 255
    requires 0 < |before| && forall r :: 0 <= r < |rows| ==> |rows[r]| == |before|
    ensures var (bound, t) := RowOf(input, SignedChar(sep), before, buffered);
      var all := if t.counter >= |before| then inserted + [bound] else inserted;
      if t.term == EOF then all == TableValues(rows) <==> Portable(rows, sep) else Underway(rows, sep, all, t.rest)
  {
    hide OnTrack, Changed, Portable, TableValues, RowOf;
    SignedOf(sep);
    var (bound, _) := RowOf(input, SignedChar(sep), before, buffered);
    if OnTrack(rows, sep, inserted, input) {
      TrackBound(rows, sep, inserted, input);
      if |inserted| == |rows| {
        EndOfTrack(rows, sep, inserted, input);
      } else {
        RowArrives(rows, sep, inserted, input, before, buffered);
      }
    } else {
      ChangedStays(rows, inserted, [bound]);
      ChangedStays(rows, inserted, []);
      ChangedStays(rows, inserted + [bound], []);
    }
  }

  lemma TrackBound(rows: seq<seq<Text>>, sep: Separator, inserted: seq<seq<Value>>, input: seq<Byte>)
    requires OnTrack(rows, sep, inserted, input)
    ensures |inserted| <= |rows|
  {
  }

  lemma NoneLeft(rows: seq<seq<Text>>, sep: Separator)
    requires |rows| == 1
    ensures AllReadBack(Cells(rows[1..], sep), sep)
  {
  }

  /**
    The import: row after row until the end of the file.  A printed table of as many columns arrives row for row and
    value for value exactly when its fields read back and the separator is not a newline, unless there is no second
    row that it could swallow.
  */
  method Import(reader: CSVReader, nCol: nat, ghost rows: seq<seq<Text>>, ghost sep: Separator)
      returns (inserted: seq<seq<Value>>)
    requires reader.Valid() && 0 < nCol && reader.cSeparator != EOF
    modifies reader, reader.z
    ensures reader.cTerm == EOF && reader.input == []
    ensures forall r :: 0 <= r < |inserted| ==> |inserted[r]| == nCol
    ensures reader.cSeparator == SignedChar(sep) && (forall r :: 0 <= r < |rows| ==> |rows[r]| == nCol) &&
            old(reader.input) == PrintTable(rows, sep) ==>
      (inserted == TableValues(rows) <==> Portable(rows, sep))
  {
    hide PrintTable, OnTrack, Changed, Portable, TableValues, RowOf, SignedChar;
    ghost var printed := reader.cSeparator == SignedChar(sep) && (forall r :: 0 <= r < |rows| ==> |rows[r]| == nCol) &&
      reader.input == PrintTable(rows, sep);
    StartUnderway(rows, sep);
    SignedOf(sep);
    var bound: seq<Value> := seq(nCol, _ => None);
    inserted := [];
    while true
      invariant reader.Valid() && |bound| == nCol && (reader.z == old(reader.z) || fresh(reader.z))
      invariant forall r :: 0 <= r < |inserted| ==> |inserted[r]| == nCol
      invariant printed ==> Underway(rows, sep, inserted, reader.input)
      decreases |reader.input|
    {
      ghost var input, buffered, before := reader.input, reader.z != null, bound;
      var next;
      bound, next := ReadRow(reader, bound);
      if printed {
        RoundDone(rows, sep, inserted, input, before, buffered);
      }
      if next >= nCol {
        inserted := inserted + [bound];
      }
      if reader.cTerm == EOF {
        break;
      }
    }
  }

  /**
    What one shell writes in CSV mode another one imports with the same separator, unless it is byte 255: the same
    rows exactly when the table is portable.
  */
  method ExportAndImport(rows: seq<seq<Text>>, nCol: nat, sep: Separator) returns (inserted: seq<seq<Value>>)
    requires 0 < nCol && (forall r :: 0 <= r < |rows| ==> |rows[r]| == nCol) && sep != 255
    ensures inserted == TableValues(rows) <==> Portable(rows, sep)
  {
    hide PrintTable, Portable, TableValues;
    var printer := new CsvPrinter(sep, false);
    for r := 0 to |rows|
      invariant printer.Valid() && printer.rows == rows[..r] && fresh(printer)
    {
      printer.ShellCallback(rows[r], rows[r]);
      assert rows[..r + 1] == rows[..r] + [rows[r]];
    }
    assert rows[..|rows|] == rows;
    var reader := new CSVReader(printer.out, SignedChar(sep));
    inserted := Import(reader, nCol, rows, sep);
  }
}

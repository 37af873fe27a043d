/** The CSV printer and the CSVReader of src/sqlite3/shell.c, byte by byte, against the functions of module Csv. */
module CsvShell {
  import opened Common
  import opened Csv

  function LinesIn(s: seq<Byte>): nat {
    if s == [] then 0 else (if s[0] == LF then 1 else 0) + LinesIn(s[1..])
  }

  function PrintRow(row: seq<Text>, sep: Separator): seq<Byte> {
    PrintCells(RowCells(row, sep), sep)
  }

  function PrintTable(rows: seq<seq<Text>>, sep: Separator): seq<Byte> {
    PrintCells(Cells(rows, sep), sep)
  }

  lemma {:induction false} PrintCellsConcat(a: seq<(Text, Byte)>, b: seq<(Text, Byte)>, sep: Separator)
    ensures PrintCells(a + b, sep) == PrintCells(a, sep) + PrintCells(b, sep)
  {
    if a == [] {
      assert a + b == b;
    } else {
      assert (a + b)[1..] == a[1..] + b;
      PrintCellsConcat(a[1..], b, sep);
    }
  }

  lemma PrintOneCell(cell: (Text, Byte), sep: Separator)
    ensures PrintCells([cell], sep) == PrintField(cell.0, sep) + [cell.1]
  {
    assert PrintCells([cell][1..], sep) == [];
  }

  lemma NothingPrinted(row: seq<Text>, sep: Separator)
    ensures |RowCells(row, sep)| == |row| && PrintCells(RowCells(row, sep)[..0], sep) == []
  {
  }

  /** One more field of a row, with what follows it. */
  lemma CellPrinted(row: seq<Text>, sep: Separator, i: nat)
    requires i < |row|
    ensures |RowCells(row, sep)| == |row|
    ensures var printed := PrintCells(RowCells(row, sep)[..i], sep) + PrintField(row[i], sep);
      if i + 1 < |row| then PrintCells(RowCells(row, sep)[..i + 1], sep) == printed + [sep]
      else PrintRow(row, sep) == printed + [LF]
  {
    hide PrintField, PrintCells;
    var cells := RowCells(row, sep);
    assert cells[..i + 1] == cells[..i] + [cells[i]];
    PrintCellsConcat(cells[..i], [cells[i]], sep);
    PrintOneCell(cells[i], sep);
    assert i + 1 == |row| ==> cells[..i + 1] == cells;
  }

  lemma {:induction false} CellsAppend(rows: seq<seq<Text>>, row: seq<Text>, sep: Separator)
    ensures Cells(rows + [row], sep) == Cells(rows, sep) + RowCells(row, sep)
  {
    hide RowCells;
    if rows == [] {
      assert rows + [row] == [row];
      assert [row][1..] == [];
    } else {
      assert (rows + [row])[1..] == rows[1..] + [row];
      CellsAppend(rows[1..], row, sep);
    }
  }

  lemma PrintTableAppend(rows: seq<seq<Text>>, row: seq<Text>, sep: Separator)
    ensures PrintTable(rows + [row], sep) == PrintTable(rows, sep) + PrintRow(row, sep)
  {
    hide PrintCells, Cells, RowCells;
    CellsAppend(rows, row, sep);
    PrintCellsConcat(Cells(rows, sep), RowCells(row, sep), sep);
  }

  lemma {:induction false} DoubledAppend(z: seq<Byte>, c: Byte)
    ensures Doubled(z + [c]) == Doubled(z) + (if c == QUOTE then [QUOTE, QUOTE] else [c])
  {
    if z == [] {
      assert [c][1..] == [];
    } else {
      assert (z + [c])[1..] == z[1..] + [c];
      DoubledAppend(z[1..], c);
    }
  }

  lemma LinesStep(s: seq<Byte>)
    ensures LinesIn(s) == if s == [] then 0 else (if s[0] == LF then 1 else 0) + LinesIn(s[1..])
  {
  }

  /** A field that keeps a byte at least for a while, so that there is a buffer to return. */
  predicate Allocates(input: seq<Byte>, cSep: int) {
    input != [] && if input[0] == QUOTE then |input| >= 2 else input[0] != cSep && input[0] != LF
  }

  /** Printed fields always do: the buffer that csv_read_one_field returns is never null for them. */
  lemma PrintedFieldAllocates(z: Text, term: Byte, sep: Separator, rest: seq<Byte>)
    ensures Allocates(PrintField(z, sep) + [term] + rest, SignedChar(sep))
  {
  }

  lemma BackUpStep(text: seq<Byte>, n: nat)
    requires n < |text| && QUOTE in text[..n + 1] && text[n] != QUOTE
    ensures n > 0 && QUOTE in text[..n] && BackUp(text[..n + 1]) == BackUp(text[..n])
  {
    assert text[..n + 1] == text[..n] + [text[n]];
    assert text[..n + 1][..n] == text[..n];
  }

  lemma BackUpEnd(text: seq<Byte>, n: nat)
    requires n < |text| && text[n] == QUOTE
    ensures QUOTE in text[..n + 1] && BackUp(text[..n + 1]) == text[..n]
  {
    assert text[..n + 1][n] == QUOTE && text[..n + 1][..n] == text[..n];
  }

  lemma PreviousAtStart()
    ensures Previous([], 0)
  {
  }

  /** How reading a quoted field goes on after one more byte, or at the end of the input. */
  lemma ReadQuotedStep(input: seq<Byte>, cSep: int, z: seq<Byte>, pc: Byte)
    requires Previous(z, pc)
    ensures Previous(z, 0) && (pc == QUOTE ==> QUOTE in z)
    ensures input == [] ==> ReadQuoted(input, cSep, z, pc) == Field(if pc == QUOTE then BackUp(z) else z, EOF, [])
    ensures input != [] && input[0] == QUOTE && pc == QUOTE ==>
      ReadQuoted(input, cSep, z, pc) == ReadQuoted(input[1..], cSep, z, 0)
    ensures input != [] && !(input[0] == QUOTE && pc == QUOTE) && Ends(input[0], cSep, z, pc) ==>
      QUOTE in z && ReadQuoted(input, cSep, z, pc) == Field(BackUp(z), input[0], input[1..])
    ensures input != [] && !(input[0] == QUOTE && pc == QUOTE) && !Ends(input[0], cSep, z, pc) ==>
      Previous(z + [input[0]], input[0]) &&
      ReadQuoted(input, cSep, z, pc) == ReadQuoted(input[1..], cSep, z + [input[0]], input[0])
    ensures LinesIn(input) == if input == [] then 0 else (if input[0] == LF then 1 else 0) + LinesIn(input[1..])
    ensures z == [] ==> input != [] ==> !Ends(input[0], cSep, z, pc) && pc != QUOTE
  {
  }

  /** How reading an unquoted field goes on after one more byte, or at the end of the input. */
  lemma ReadUnquotedStep(input: seq<Byte>, cSep: int, z: seq<Byte>)
    ensures input == [] ==> ReadUnquoted(input, cSep, z) == Field(z, EOF, [])
    ensures input != [] && input[0] == LF && |z| > 1 && z[|z| - 1] == CR ==>
      ReadUnquoted(input, cSep, z) == Field(z[..|z| - 1], LF, input[1..])
    ensures input != [] && input[0] == LF && !(|z| > 1 && z[|z| - 1] == CR) ==>
      ReadUnquoted(input, cSep, z) == Field(z, LF, input[1..])
    ensures input != [] && input[0] != LF ==>
      ReadUnquoted(input, cSep, z) ==
      if input[0] == cSep then Field(z, input[0], input[1..]) else ReadUnquoted(input[1..], cSep, z + [input[0]])
  {
  }

  /** The fields of callback_data that CSV mode uses. */
  class CsvPrinter {
    const separator: Separator
    const showHeader: bool
    var cnt: nat
    var out: seq<Byte>
    /** The rows printed so far. */
    ghost var rows: seq<seq<Text>>

    ghost predicate Valid()
      reads this
    {
      out == PrintTable(rows, separator)
    }

    constructor (separator: Separator, showHeader: bool)
      ensures Valid() && rows == [] && cnt == 0
      ensures this.separator == separator && this.showHeader == showHeader
    {
      this.separator := separator;
      this.showHeader := showHeader;
      cnt, out, rows := 0, [], [];
    }

    /** The field between quotes, its own quotes doubled. */
    method OutputQuoted(z: Text)
      modifies this`out
      ensures out == old(out) + ([QUOTE] + Doubled(z) + [QUOTE])
    {
      out := out + [QUOTE];
      for i := 0 to |z|
        invariant out == old(out) + ([QUOTE] + Doubled(z[..i]))
      {
        assert z[..i + 1] == z[..i] + [z[i]];
        DoubledAppend(z[..i], z[i]);
        if z[i] == QUOTE {
          out := out + [QUOTE];
        }
        out := out + [z[i]];
      }
      assert z[..|z|] == z;
      out := out + [QUOTE];
    }

    /** output_csv for a field that is not null */
    method OutputCsv(z: Text, bSep: bool)
      modifies this`out
      ensures out == old(out) + PrintField(z, separator) + if bSep then [separator] else []
    {
      var i := 0;
      while i < |z|
        invariant 0 <= i <= |z| && out == old(out)
        invariant forall k :: 0 <= k < i ==> !NeedCsvQuote(z[k]) && z[k] != separator
      {
        if NeedCsvQuote(z[i]) || z[i] == separator {
          assert NeedsQuotes(z, separator);
          i := 0;
          break;
        }
        i := i + 1;
      }
      if i == 0 {
        OutputQuoted(z);
      } else {
        out := out + z;
      }
      if bSep {
        out := out + [separator];
      }
    }

    method OutputRow(row: seq<Text>)
      requires Valid() && row != []
      modifies this`out, this`rows
      ensures Valid() && rows == old(rows) + [row]
    {
      hide PrintField, PrintCells, PrintTable, Cells, RowCells;
      NothingPrinted(row, separator);
      for i := 0 to |row|
        invariant rows == old(rows) && |RowCells(row, separator)| == |row|
        invariant i < |row| ==> out == old(out) + PrintCells(RowCells(row, separator)[..i], separator)
        invariant i == |row| ==> out + [LF] == old(out) + PrintRow(row, separator)
      {
        CellPrinted(row, separator, i);
        OutputCsv(row[i], i < |row| - 1);
      }
      out := out + [LF];
      PrintTableAppend(rows, row, separator);
      rows := rows + [row];
    }

    /** One result row in CSV mode; the first one is preceded by the column names if asked for. */
    method ShellCallback(azCol: seq<Text>, azArg: seq<Text>)
      requires Valid() && azArg != [] && |azCol| == |azArg|
      modifies this
      ensures Valid() && cnt == old(cnt) + 1
      ensures rows == old(rows) + (if old(cnt) == 0 && showHeader then [azCol] else []) + [azArg]
    {
      cnt := cnt + 1;
      if cnt == 1 && showHeader {
        OutputRow(azCol);
      }
      OutputRow(azArg);
    }
  }

  class CSVReader {
    const cSeparator: int
    /** What the stream still holds. */
    var input: seq<Byte>
    var z: array?<Byte>
    var n: nat
    var nAlloc: nat
    var nLine: int
    var cTerm: int

    ghost predicate Valid()
      reads this, z
    {
      if z == null then n == 0 && nAlloc == 0 else z.Length == nAlloc && n < nAlloc
    }

    ghost function Text(): seq<Byte>
      requires Valid()
      reads this, z
    {
      if z == null then [] else z[..n]
    }

    constructor (input: seq<Byte>, cSeparator: int)
      ensures Valid() && this.input == input && this.cSeparator == cSeparator && nLine == 1 && z == null
    {
      this.input, this.cSeparator := input, cSeparator;
      z, n, nAlloc, nLine, cTerm := null, 0, 0, 1, 0;
    }

    /** csv_append_char */
    method AppendChar(c: Byte)
      requires Valid()
      modifies this`z, this`n, this`nAlloc, z
      ensures Valid() && Text() == old(Text()) + [c]
      ensures z != null && (z == old(z) || fresh(z))
    {
      if n + 1 >= nAlloc {
        nAlloc := nAlloc + nAlloc + 100;
        var grown := new Byte[nAlloc];
        if z != null {
          forall k | 0 <= k < n {
            grown[k] := z[k];
          }
        }
        z := grown;
      }
      z[n] := c;
      n := n + 1;
    }

    /** fgetc */
    method Fgetc() returns (c: int)
      modifies this`input
      ensures old(input) == [] ==> c == EOF && input == []
      ensures old(input) != [] ==> c == old(input)[0] && input == old(input)[1..]
    {
      if input == [] {
        return EOF;
      }
      c := input[0];
      input := input[1..];
    }

    /** do n-- while z[n] is not a quote */
    method BackUpToQuote()
      requires Valid() && QUOTE in Text()
      modifies this`n
      ensures Valid() && Text() == old(BackUp(Text()))
    {
      hide BackUp;
      ghost var text := Text();
      assert text[..|text|] == text;
      n := n - 1;
      while z[n] != QUOTE
        invariant n < |text| && forall k :: 0 <= k < |text| ==> z[k] == text[k]
        invariant QUOTE in text[..n + 1] && BackUp(text[..n + 1]) == BackUp(text)
        decreases n
      {
        BackUpStep(text, n);
        n := n - 1;
      }
      BackUpEnd(text, n);
    }

    /** One round of the loop of a quoted field after the previous byte pc. */
    method ReadQuotedByte(pc: Byte) returns (next: Byte, ended: bool)
      requires Valid() && Previous(Text(), pc)
      modifies this`input, this`z, this`n, this`nAlloc, this`nLine, this`cTerm, z
      ensures Valid() && (z == old(z) || fresh(z))
      ensures ended ==> Field(Text(), cTerm, input) == ReadQuoted(old(input), cSeparator, old(Text()), pc)
      ensures !ended ==> Previous(Text(), next) && |input| < |old(input)|
      ensures !ended ==>
        ReadQuoted(input, cSeparator, Text(), next) == ReadQuoted(old(input), cSeparator, old(Text()), pc)
      ensures nLine + LinesIn(input) == old(nLine + LinesIn(input))
      ensures z != null <==> old(z != null || input != [])
    {
      hide PrintField, Ends, ReadQuoted, LinesIn, Previous, BackUp;
      ReadQuotedStep(input, cSeparator, Text(), pc);
      next, ended := pc, true;
      var c := Fgetc();
      if c == LF {
        nLine := nLine + 1;
      }
      if c == QUOTE {
        if pc == QUOTE {
          return 0, false;
        }
      }
      if EndsHere(c, pc) {
        BackUpToQuote();
        cTerm := c;
      } else if c == EOF {
        cTerm := EOF;
      } else {
        AppendChar(c);
        next, ended := c, false;
      }
    }

    /** Whatever follows the opening quote: bytes up to a terminator after a quote, or the end of the input. */
    method ReadQuotedField()
      requires Valid() && n == 0
      modifies this`input, this`z, this`n, this`nAlloc, this`nLine, this`cTerm, z
      ensures Valid() && (z == old(z) || fresh(z))
      ensures Field(Text(), cTerm, input) == ReadQuoted(old(input), cSeparator, [], 0)
      ensures nLine + LinesIn(input) == old(nLine + LinesIn(input))
      ensures z != null <==> old(z != null || input != [])
    {
      hide PrintField, Ends, ReadQuoted, LinesIn, Previous, BackUp;
      PreviousAtStart();
      assert Text() == [];
      var pc: Byte, ended := 0, false;
      while !ended
        invariant Valid() && (z == old(z) || fresh(z))
        invariant !ended ==> Previous(Text(), pc)
        invariant if ended then Field(Text(), cTerm, input) == ReadQuoted(old(input), cSeparator, [], 0)
                  else ReadQuoted(input, cSeparator, Text(), pc) == ReadQuoted(old(input), cSeparator, [], 0)
        invariant nLine + LinesIn(input) == old(nLine + LinesIn(input))
        invariant z == null ==> input == old(input) && old(z) == null && (ended ==> input == [])
        invariant old(z == null && input == []) ==> z == null && input == []
        decreases |input|, if ended then 0 else 1
      {
        pc, ended := ReadQuotedByte(pc);
      }
    }

    /** The rest of an unquoted field whose first byte is c. */
    method ReadUnquotedField(first: Byte)
      requires Valid() && n == 0
      modifies this`input, this`z, this`n, this`nAlloc, this`nLine, this`cTerm, z
      ensures Valid() && (z == old(z) || fresh(z))
      ensures Field(Text(), cTerm, input) == ReadUnquoted([first] + old(input), cSeparator, [])
      ensures nLine + LinesIn(input) == old(nLine) + LinesIn([first] + old(input))
      ensures z != null <==> old(z != null) || (first != cSeparator && first != LF)
    {
      hide LinesIn, ReadUnquoted;
      var c: int := first;
      ghost var ahead := [first] + input;
      while c != EOF && c != cSeparator && c != LF
        invariant Valid() && (z == old(z) || fresh(z))
        invariant if c == EOF then ahead == [] && input == [] else ahead != [] && c == ahead[0] && input == ahead[1..]
        invariant ReadUnquoted(ahead, cSeparator, Text()) == ReadUnquoted([first] + old(input), cSeparator, [])
        invariant nLine + LinesIn(ahead) == old(nLine) + LinesIn([first] + old(input))
        invariant z == null ==> c == first && old(z) == null && Text() == []
        invariant old(z) == null && (first == cSeparator || first == LF) ==> z == null && c == first
        decreases |ahead|
      {
        LinesStep(ahead);
        ReadUnquotedStep(ahead, cSeparator, Text());
        AppendChar(c);
        ahead := input;
        c := Fgetc();
      }
      LinesStep(ahead);
      ReadUnquotedStep(ahead, cSeparator, Text());
      if c == LF {
        nLine := nLine + 1;
        if n > 1 && z[n - 1] == CR {
          n := n - 1;
        }
      }
      cTerm := c;
    }

    /**
      csv_read_one_field: false for a null result.  At the end of the input nothing is read; otherwise the next
      field, its terminator and the number of lines passed are those of ReadField.
    */
    method ReadOneField() returns (found: bool)
      requires Valid()
      modifies this`input, this`z, this`n, this`nAlloc, this`nLine, this`cTerm, z
      ensures Valid() && (z == old(z) || fresh(z))
      ensures old(input) == [] ==> !found && cTerm == EOF && input == [] && nLine == old(nLine)
      ensures old(input) != [] ==> Field(Text(), cTerm, input) == ReadField(old(input), cSeparator)
      ensures old(input) != [] ==> found == (z != null) && (found ==> z[n] == 0)
      ensures nLine + LinesIn(input) == old(nLine + LinesIn(input))
      ensures z != null <==> old(z) != null || Allocates(old(input), cSeparator)
      ensures found <==> old(input) != [] && (old(z) != null || Allocates(old(input), cSeparator))
    {
      n := 0;
      LinesStep(input);
      var c := Fgetc();
      if c == EOF {
        cTerm := EOF;
        return false;
      }
      if c == QUOTE {
        ReadQuotedField();
      } else {
        assert [old(input)[0]] + old(input)[1..] == old(input);
        ReadUnquotedField(c);
      }
      if z != null {
        z[n] := 0;
      }
      return z != null;
    }

    /** The test that ends a quoted field. */
    predicate EndsHere(c: int, pc: Byte)
      requires Valid()
      reads this, z
      ensures c == EOF ==> EndsHere(c, pc) == (pc == QUOTE)
      ensures 0 <= c < 256 ==> EndsHere(c, pc) == Ends(c, cSeparator, Text(), pc)
    {
      || (c == cSeparator && pc == QUOTE)
      || (c == LF && pc == QUOTE)
      || (c == LF && pc == CR && n >= 2 && z[n - 2] == QUOTE)
      || (c == EOF && pc == QUOTE)
    }
  }
}

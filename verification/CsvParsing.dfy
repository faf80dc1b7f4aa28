/** The CSV parser of benchmark/single-source/CSVParsing.swift. */
module CsvParsing {

  const COMMA := ','
  const NEWLINE := '\n'
  const CARRIAGE_RETURN := '\n'
  const QUOTE := '"'

  /** What a call made of the remainder: a field and what follows it, no field, or a thrown error.
      The remainder is as the call leaves it, also when it throws. */
  datatype Parsed = Field(text: string, rest: string) | Nothing(rest: string) | Thrown(rest: string)

  // ---- the grammar the parser accepts

  /** The position of the first `c` from `i` on, or the length. */
  function IndexOf(s: string, c: char, i: nat): (k: nat)
    requires i <= |s|
    ensures i <= k <= |s| && (k < |s| ==> s[k] == c)
    ensures forall j :: i <= j < k ==> s[j] != c
    decreases |s| - i
  {
    if i == |s| || s[i] == c then i else IndexOf(s, c, i + 1)
  }

  function Prepended(head: string, p: Parsed): Parsed {
    match p
    case Field(text, rest) => Field(head + text, rest)
    case _ => p
  }

  /** The rest of a quoted field, after its opening quote. */
  function QuotedField(s: string): (p: Parsed)
    ensures !p.Nothing? && |p.rest| <= |s| && (p.Field? ==> |p.rest| < |s|)
  {
    var k := IndexOf(s, QUOTE, 0);
    if k == |s| then Thrown(s)
    else
      var after := s[k + 1..];
      if after == "" then Field(s[..k], after)
      else if after[0] == QUOTE then
        Prepended(s[..k] + [QUOTE], QuotedField(after[1..]))
      else if after[0] == COMMA then Field(s[..k], after[1..])
      else Field(s[..k], after)
  }

  /** The position of the first comma or newline from `i` on, or the length. */
  function BareEnd(s: string, i: nat): (k: nat)
    requires i <= |s|
    ensures i <= k <= |s| && (k < |s| ==> s[k] == COMMA || s[k] == NEWLINE)
    ensures forall j :: i <= j < k ==> s[j] != COMMA && s[j] != NEWLINE
    decreases |s| - i
  {
    if i == |s| || s[i] == COMMA || s[i] == NEWLINE then i else BareEnd(s, i + 1)
  }

  function AnyField(s: string): (p: Parsed)
    ensures |p.rest| <= |s| && (s != "" && !p.Nothing? ==> |p.rest| < |s|) && (s == "" ==> p.Nothing?)
    ensures p.Nothing? ==> p.rest == s && (s == "" || s[0] == NEWLINE)
  {
    if s == "" then Nothing(s)
    else if s[0] == QUOTE then QuotedField(s[1..])
    else if s[0] == NEWLINE then Nothing(s)
    else
      var k := BareEnd(s, 0);
      if k == |s| then Field(s, "") else Field(s[..k], if s[k] == COMMA then s[k + 1..] else s[k..])
  }

  /** The fields of a line, up to the end of it or to an error. */
  datatype Fields = Fields(fields: seq<string>, thrown: bool, rest: string)

  function LineFields(s: string): (f: Fields)
    ensures |f.rest| <= |s| && (!f.thrown ==> f.rest == "" || f.rest[0] == NEWLINE)
    ensures |f.rest| < |s| || (f.fields == [] && !f.thrown)
    decreases |s|
  {
    match AnyField(s)
    case Field(text, rest) =>
      var more := LineFields(rest);
      Fields([text] + more.fields, more.thrown, more.rest)
    case Nothing(rest) => Fields([], false, rest)
    case Thrown(rest) => Fields([], true, rest)
  }

  function SkipNewlines(s: string): (rest: string)
    ensures |rest| <= |s| && (rest != "" ==> rest[0] != NEWLINE)
    ensures s != "" && s[0] == NEWLINE ==> |rest| < |s|
  {
    if s != "" && s[0] == NEWLINE then SkipNewlines(s[1..]) else s
  }

  function Line(s: string): (f: Fields)
    ensures s != "" ==> |f.rest| < |s|
  {
    var f := LineFields(s);
    if f.thrown then f else f.(rest := SkipNewlines(f.rest))
  }

  /** All lines of the input, one for each call of `parseLine`. */
  function Lines(s: string): seq<Fields>
    decreases |s|
  {
    if s == "" then [] else [Line(s)] + Lines(Line(s).rest)
  }

  // ---- the parser

  method ParseQuotedField(s: string) returns (p: Parsed)
    ensures p == QuotedField(s)
  {
    var result, remainder := "", s;
    while remainder != ""
      invariant QuotedField(s) == Prepended(result, QuotedField(remainder))
      decreases |remainder|
    {
      var nextQuoteIndex := IndexOf(remainder, QUOTE, 0);
      if nextQuoteIndex == |remainder| {
        return Thrown(remainder);
      }
      var field := remainder[..nextQuoteIndex];
      remainder := remainder[nextQuoteIndex + 1..];
      ghost var before := result;
      result := result + field;
      if remainder != "" {
        var peek := remainder[0];
        if peek == QUOTE {
          remainder := remainder[1..];
          PrependedTwice(before, field + [QUOTE], QuotedField(remainder));
          assert before + (field + [QUOTE]) == result + [QUOTE];
          result := result + [QUOTE];
        } else if peek == COMMA {
          remainder := remainder[1..];
          return Field(result, remainder);
        } else {
          return Field(result, remainder);
        }
      } else {
        return Field(result, remainder);
      }
    }
    return Thrown(remainder);
  }

  lemma PrependedTwice(a: string, b: string, p: Parsed)
    ensures Prepended(a, Prepended(b, p)) == Prepended(a + b, p)
  {
    if p.Field? {
      assert a + (b + p.text) == a + b + p.text;
    }
  }

  method ParseField(s: string) returns (p: Parsed)
    ensures p == AnyField(s)
  {
    if s == "" {
      return Nothing(s);
    }
    var start := s[0];
    if start == QUOTE {
      p := ParseQuotedField(s[1..]);
    } else if start == NEWLINE {
      return Nothing(s);
    } else {
      var index := 0;
      while index < |s|
        invariant index <= |s| && BareEnd(s, 0) == BareEnd(s, index)
      {
        if s[index] == COMMA {
          return Field(s[..index], s[index + 1..]);
        } else if s[index] == NEWLINE {
          return Field(s[..index], s[index..]);
        } else {
          index := index + 1;
        }
      }
      return Field(s, "");
    }
  }

  /** `processField` collects the fields. The result says whether the call threw and what it returned. */
  method ParseLine(s: string) returns (line: Fields, more: bool)
    ensures line == Line(s)
    ensures !line.thrown ==> (more <==> line.rest != "" && line.fields != [])
  {
    var fields, remainder := [], s;
    var p := ParseField(remainder);
    while p.Field?
      invariant p == AnyField(remainder)
      invariant LineFields(s) == LineFields(remainder).(fields := fields + LineFields(remainder).fields)
      decreases |remainder|
    {
      ghost var later := LineFields(p.rest).fields;
      assert fields + ([p.text] + later) == fields + [p.text] + later;
      fields := fields + [p.text];
      remainder := p.rest;
      p := ParseField(remainder);
    }
    remainder := p.rest;
    assert LineFields(s).fields == fields;
    if p.Thrown? {
      return Fields(fields, true, remainder), false;
    }
    // "Expected a newline or CR" is never thrown: without a field the remainder starts with a newline
    assert remainder != "" ==> remainder[0] == CARRIAGE_RETURN;
    ghost var end := remainder;
    while remainder != "" && (remainder[0] == CARRIAGE_RETURN || remainder[0] == NEWLINE)
      invariant SkipNewlines(remainder) == SkipNewlines(end)
      decreases |remainder|
    {
      remainder := remainder[1..];
    }
    return Fields(fields, false, remainder), remainder != "" && fields != [];
  }

  /** The loop of the driver, which ends because every call shortens the remainder, also one that throws. */
  method ParseAll(contents: string) returns (lines: seq<Fields>)
    ensures lines == Lines(contents)
  {
    lines := [];
    var remainder := contents;
    while remainder != ""
      invariant Lines(contents) == lines + Lines(remainder)
      decreases |remainder|
    {
      var line, _ := ParseLine(remainder);
      assert lines + ([line] + Lines(line.rest)) == lines + [line] + Lines(line.rest);
      lines := lines + [line];
      remainder := line.rest;
    }
  }

  // ---- printing and parsing back

  /** A field as it is to be printed: between quotes, or bare. */
  datatype Cell = Quoted(text: string) | Bare(text: string)

  function Escaped(text: string): string {
    if text == "" then "" else (if text[0] == QUOTE then [QUOTE, QUOTE] else [text[0]]) + Escaped(text[1..])
  }

  function PrintCell(cell: Cell): string {
    match cell
    case Quoted(text) => [QUOTE] + Escaped(text) + [QUOTE]
    case Bare(text) => text
  }

  /** A bare field has no separator in it and no quote at its beginning. */
  ghost predicate Printable(cell: Cell) {
    cell.Bare? ==>
      && (forall i :: 0 <= i < |cell.text| ==> cell.text[i] != COMMA && cell.text[i] != NEWLINE)
      && (cell.text != "" ==> cell.text[0] != QUOTE)
  }

  ghost predicate PrintableCells(row: seq<Cell>) {
    row != [] && forall i :: 0 <= i < |row| ==> Printable(row[i])
  }

  /** Rows are not empty, and do not end in an empty bare field. */
  ghost predicate PrintableRow(row: seq<Cell>) {
    PrintableCells(row) && row[|row| - 1] != Bare("")
  }

  function PrintRow(row: seq<Cell>): string {
    if row == [] then "" else if |row| == 1 then PrintCell(row[0]) else PrintCell(row[0]) + [COMMA] + PrintRow(row[1..])
  }

  /** Rows separated by newlines, perhaps with one after the last row, too. */
  function PrintRows(rows: seq<seq<Cell>>, newlineAtEnd: bool): string {
    if rows == [] then ""
    else if |rows| == 1 then PrintRow(rows[0]) + if newlineAtEnd then [NEWLINE] else ""
    else PrintRow(rows[0]) + [NEWLINE] + PrintRows(rows[1..], newlineAtEnd)
  }

  function Texts(row: seq<Cell>): (texts: seq<string>)
    ensures |texts| == |row|
  {
    if row == [] then [] else [row[0].text] + Texts(row[1..])
  }

  /** What stands after a printed field: the end, a comma, or a newline. */
  predicate EndsField(tail: string) {
    tail == "" || tail[0] == COMMA || tail[0] == NEWLINE
  }

  function AfterComma(tail: string): string {
    if tail != "" && tail[0] == COMMA then tail[1..] else tail
  }

  lemma IndexOfIs(s: string, c: char, i: nat, k: nat)
    requires i <= k < |s| && s[k] == c && forall j :: i <= j < k ==> s[j] != c
    ensures IndexOf(s, c, i) == k
  {
  }

  lemma {:induction false} EscapedConcat(a: string, b: string)
    ensures Escaped(a + b) == Escaped(a) + Escaped(b)
  {
    if a == "" {
      assert a + b == b;
    } else {
      EscapedConcat(a[1..], b);
      var first := if a[0] == QUOTE then [QUOTE, QUOTE] else [a[0]];
      assert (a + b)[1..] == a[1..] + b;
      assert first + (Escaped(a[1..]) + Escaped(b)) == first + Escaped(a[1..]) + Escaped(b);
    }
  }

  lemma {:induction false} EscapedPlain(text: string)
    requires QUOTE !in text
    ensures Escaped(text) == text
  {
    if text != "" {
      EscapedPlain(text[1..]);
    }
  }

  /** The field up to the next quote, with what follows that quote. */
  lemma UpToQuote(head: string, after: string)
    requires QUOTE !in head
    ensures after == "" || after[0] != QUOTE ==> QuotedField(head + [QUOTE] + after) == Field(head, AfterComma(after))
    ensures after != "" && after[0] == QUOTE ==>
              QuotedField(head + [QUOTE] + after) == Prepended(head + [QUOTE], QuotedField(after[1..]))
  {
    var s, k := head + [QUOTE] + after, |head|;
    assert forall j :: 0 <= j < k ==> s[j] == head[j];
    IndexOfIs(s, QUOTE, 0, k);
    assert s[..k] == head && s[k + 1..] == after;
  }

  lemma EscapedSplit(head: string, more: string)
    requires QUOTE !in head
    ensures Escaped(head + [QUOTE] + more) == head + [QUOTE] + ([QUOTE] + Escaped(more))
  {
    EscapedQuote();
    hide Escaped;
    EscapedPlain(head);
    EscapedConcat(head + [QUOTE], more);
    EscapedConcat(head, [QUOTE]);
  }

  lemma EscapedQuote()
    ensures Escaped([QUOTE]) == [QUOTE, QUOTE]
  {
  }

  lemma {:induction false} QuotedBack(text: string, tail: string)
    requires tail == "" || tail[0] != QUOTE
    ensures QuotedField(Escaped(text) + [QUOTE] + tail) == Field(text, AfterComma(tail))
    decreases |text|
  {
    hide QuotedField, Escaped, IndexOf;
    var k := IndexOf(text, QUOTE, 0);
    var head := text[..k];
    if k == |text| {
      EscapedPlain(text);
      UpToQuote(text, tail);
    } else {
      var more := text[k + 1..];
      var inner := Escaped(more) + [QUOTE] + tail;
      assert text == head + [QUOTE] + more;
      EscapedSplit(head, more);
      QuotesApart(head, Escaped(more), tail);
      UpToQuote(head, [QUOTE] + inner);
      assert ([QUOTE] + inner)[1..] == inner;
      QuotedBack(more, tail);
    }
  }

  lemma QuotesApart(head: string, more: string, tail: string)
    ensures head + [QUOTE] + ([QUOTE] + more) + [QUOTE] + tail == head + [QUOTE] + ([QUOTE] + (more + [QUOTE] + tail))
  {
  }

  lemma BareEndIs(s: string, i: nat, k: nat)
    requires i <= k <= |s| && (k < |s| ==> s[k] == COMMA || s[k] == NEWLINE)
    requires forall j :: i <= j < k ==> s[j] != COMMA && s[j] != NEWLINE
    ensures BareEnd(s, i) == k
  {
  }

  lemma BareBack(text: string, tail: string)
    requires Printable(Bare(text)) && EndsField(tail) && (text == "" ==> tail != "" && tail[0] == COMMA)
    ensures AnyField(text + tail) == Field(text, AfterComma(tail))
  {
    var s := text + tail;
    assert forall j :: 0 <= j < |text| ==> s[j] == text[j];
    BareEndIs(s, 0, |text|);
    assert s[..|text|] == text && s[|text|..] == tail;
    assert tail != "" ==> s[|text| + 1..] == tail[1..];
  }

  /** A printed field is parsed back, unless it is bare and empty and no comma follows. */
  lemma CellBack(cell: Cell, tail: string)
    requires Printable(cell) && EndsField(tail)
    requires cell == Bare("") ==> tail != "" && tail[0] == COMMA
    ensures AnyField(PrintCell(cell) + tail) == Field(cell.text, AfterComma(tail))
  {
    hide QuotedField, BareEnd, Escaped;
    match cell
    case Quoted(text) =>
      QuotedBack(text, tail);
      var s := PrintCell(cell) + tail;
      assert s[1..] == Escaped(text) + [QUOTE] + tail;
    case Bare(text) =>
      BareBack(text, tail);
  }

  lemma EndOfLine(tail: string)
    requires tail == "" || tail[0] == NEWLINE
    ensures LineFields(tail) == Fields([], false, tail)
  {
  }

  /** The texts that come back from a printed row: all but an empty bare field at the end. */
  function TextsBack(row: seq<Cell>): seq<string> {
    if row == [] || row == [Bare("")] then [] else [row[0].text] + TextsBack(row[1..])
  }

  lemma OneCellBack(cell: Cell, tail: string)
    requires Printable(cell) && (tail == "" || tail[0] == NEWLINE)
    ensures LineFields(PrintCell(cell) + tail) == Fields(if cell == Bare("") then [] else [cell.text], false, tail)
  {
    EndOfLine(tail);
    if cell == Bare("") {
      assert PrintCell(cell) + tail == tail;
    } else {
      hide PrintCell, AnyField;
      CellBack(cell, tail);
    }
  }

  lemma CellThenRow(cell: Cell, more: string)
    requires Printable(cell)
    ensures LineFields(PrintCell(cell) + ([COMMA] + more)) ==
            var f := LineFields(more); Fields([cell.text] + f.fields, f.thrown, f.rest)
  {
    hide AnyField, PrintCell;
    CellBack(cell, [COMMA] + more);
    assert AfterComma([COMMA] + more) == more;
  }

  lemma {:induction false} RowBack(row: seq<Cell>, tail: string)
    requires PrintableCells(row) && (tail == "" || tail[0] == NEWLINE)
    ensures LineFields(PrintRow(row) + tail) == Fields(TextsBack(row), false, tail)
  {
    hide AnyField, PrintCell, LineFields;
    if |row| == 1 {
      OneCellBack(row[0], tail);
      assert row == [row[0]] && TextsBack(row[1..]) == [];
    } else {
      RowBack(row[1..], tail);
      var more := PrintRow(row[1..]) + tail;
      assert PrintRow(row) + tail == PrintCell(row[0]) + ([COMMA] + more);
      CellThenRow(row[0], more);
    }
  }

  lemma {:induction false} AllTextsBack(row: seq<Cell>)
    requires row != []
    ensures TextsBack(row) == Texts(row) <==> row[|row| - 1] != Bare("")
    ensures |TextsBack(row)| == if row[|row| - 1] != Bare("") then |row| else |row| - 1
  {
    if |row| == 1 {
      assert Texts(row) == [row[0].text];
      assert row[1..] == [];
    } else {
      AllTextsBack(row[1..]);
      assert Texts(row)[1..] == Texts(row[1..]) && TextsBack(row)[1..] == TextsBack(row[1..]);
    }
  }

  /** A printed row of printable cells is parsed back whole if and only if it does not end in an empty bare field. */
  lemma WholeRowBack(row: seq<Cell>)
    requires PrintableCells(row)
    ensures Line(PrintRow(row)).fields == Texts(row) <==> row[|row| - 1] != Bare("")
  {
    hide PrintRow, LineFields, Texts, TextsBack;
    RowBack(row, "");
    assert PrintRow(row) + "" == PrintRow(row);
    AllTextsBack(row);
  }

  lemma FirstOfRow(row: seq<Cell>)
    requires PrintableRow(row)
    ensures PrintRow(row) != "" && PrintRow(row)[0] != NEWLINE
  {
  }

  lemma LineBack(row: seq<Cell>, tail: string, next: string)
    requires PrintableRow(row) && (tail == "" || tail == [NEWLINE] + next)
    requires (tail == "" ==> next == "") && (next != "" ==> next[0] != NEWLINE)
    ensures Line(PrintRow(row) + tail) == Fields(Texts(row), false, next)
  {
    hide PrintRow, LineFields, Texts, TextsBack;
    RowBack(row, tail);
    AllTextsBack(row);
    assert SkipNewlines(next) == next;
    assert tail != "" ==> tail[1..] == next;
    assert SkipNewlines(tail) == next;
  }

  // ---- lines as they are written

  /** Texts without separators or quotes, parted by a comma, are the fields. */
  lemma CommaLine(a: string, b: string, next: string)
    requires forall i :: 0 <= i < |a| ==> a[i] != ',' && a[i] != '\n' && a[i] != '"'
    requires forall i :: 0 <= i < |b| ==> b[i] != ',' && b[i] != '\n' && b[i] != '"'
    requires b != "" && (next != "" ==> next[0] != '\n')
    ensures Line(a + "," + b + "\n" + next) == Fields([a, b], false, next)
  {
    var row := [Bare(a), Bare(b)];
    assert PrintableRow(row);
    TwoCells(row);
    CommaText(a, b, next);
    hide PrintableRow, PrintRow, Line, Texts;
    LineBack(row, [NEWLINE] + next, next);
  }

  lemma CommaText(a: string, b: string, next: string)
    ensures a + [COMMA] + b + ([NEWLINE] + next) == a + "," + b + "\n" + next
  {
  }

  lemma TwoCells(row: seq<Cell>)
    requires |row| == 2
    ensures PrintRow(row) == PrintCell(row[0]) + [COMMA] + PrintCell(row[1]) && Texts(row) == [row[0].text, row[1].text]
  {
    assert row[1..] == [row[1]];
    assert Texts(row[1..]) == [row[1].text];
  }

  /** Between quotes any text without a quote is one field. */
  lemma QuotedLine(text: string, next: string)
    requires (forall i :: 0 <= i < |text| ==> text[i] != '"') && (next != "" ==> next[0] != '\n')
    ensures Line("\"" + text + "\"" + "\n" + next) == Fields([text], false, next)
  {
    hide Line, Escaped;
    EscapedPlain(text);
    QuotedCellBack(text, text, next);
  }

  /** Two quotes in it are one. */
  lemma DoubledQuoteLine(a: string, b: string, next: string)
    requires (forall i :: 0 <= i < |a| ==> a[i] != '"') && (forall i :: 0 <= i < |b| ==> b[i] != '"')
    requires next != "" ==> next[0] != '\n'
    ensures Line("\"" + (a + "\"\"" + b) + "\"" + "\n" + next) == Fields([a + "\"" + b], false, next)
  {
    hide Line, Escaped;
    EscapedPlain(b);
    EscapedSplit(a, b);
    DoubledQuoteText(a, b);
    QuotedCellBack(a + [QUOTE] + b, a + "\"\"" + b, next);
  }

  lemma DoubledQuoteText(a: string, b: string)
    ensures a + [QUOTE] + ([QUOTE] + b) == a + "\"\"" + b
  {
  }

  lemma QuotedCellBack(text: string, written: string, next: string)
    requires Escaped(text) == written && (next != "" ==> next[0] != NEWLINE)
    ensures Line("\"" + written + "\"" + "\n" + next) == Fields([text], false, next)
  {
    hide Line, Escaped, LineFields;
    LineBack([Quoted(text)], [NEWLINE] + next, next);
    assert [QUOTE] + written + [QUOTE] + ([NEWLINE] + next) == "\"" + written + "\"" + "\n" + next;
  }

  /** Every line parsed from the printed rows is its row, and there are no others. */
  ghost predicate ComesBack(rows: seq<seq<Cell>>, newlineAtEnd: bool) {
    var lines := Lines(PrintRows(rows, newlineAtEnd));
    && |lines| == |rows|
    && forall i :: 0 <= i < |rows| ==> lines[i].fields == Texts(rows[i]) && !lines[i].thrown
  }

  lemma {:induction false} PrintableRowsBack(rows: seq<seq<Cell>>, newlineAtEnd: bool)
    requires forall i :: 0 <= i < |rows| ==> PrintableRow(rows[i])
    ensures ComesBack(rows, newlineAtEnd)
  {
    if rows != [] {
      var s := PrintRows(rows, newlineAtEnd);
      var next := PrintRows(rows[1..], newlineAtEnd);
      var tail := if |rows| == 1 then (if newlineAtEnd then [NEWLINE] else "") else [NEWLINE] + next;
      assert s == PrintRow(rows[0]) + tail;
      if |rows| > 1 {
        FirstOfRow(rows[1]);
        assert next[0] == PrintRow(rows[1])[0];
      }
      FirstOfRow(rows[0]);
      hide PrintRow, Line;
      LineBack(rows[0], tail, next);
      PrintableRowsBack(rows[1..], newlineAtEnd);
    }
  }

  // ---- the fields of all lines: an empty bare field at the end of a row is missing from them

  function AllFields(lines: seq<Fields>): seq<string> {
    if lines == [] then [] else lines[0].fields + AllFields(lines[1..])
  }

  function AllTextsOf(rows: seq<seq<Cell>>): seq<string> {
    if rows == [] then [] else TextsBack(rows[0]) + AllTextsOf(rows[1..])
  }

  function CellCount(rows: seq<seq<Cell>>): nat {
    if rows == [] then 0 else |rows[0]| + CellCount(rows[1..])
  }

  /** Newlines in front add lines without a field, if any. */
  lemma NewlinesInFront(s: string)
    ensures AllFields(Lines(SkipNewlines(s))) == AllFields(Lines(s))
  {
    if s != "" && s[0] == NEWLINE {
      EndOfLine(s);
      assert Line(s) == Fields([], false, SkipNewlines(s));
      assert Lines(s) == [Line(s)] + Lines(SkipNewlines(s));
    }
  }

  lemma FieldsOfRow(row: seq<Cell>, tail: string)
    requires PrintableCells(row) && (tail == "" || tail[0] == NEWLINE)
    ensures AllFields(Lines(PrintRow(row) + tail)) == TextsBack(row) + AllFields(Lines(tail))
  {
    hide PrintRow, LineFields, SkipNewlines, TextsBack;
    RowBack(row, tail);
    var s := PrintRow(row) + tail;
    NewlinesInFront(tail);
    if s != "" {
      assert Lines(s) == [Line(s)] + Lines(SkipNewlines(tail));
    } else {
      EndOfLine("");
    }
  }

  lemma {:induction false} FieldsOfRows(rows: seq<seq<Cell>>, newlineAtEnd: bool)
    requires forall i :: 0 <= i < |rows| ==> PrintableCells(rows[i])
    ensures AllFields(Lines(PrintRows(rows, newlineAtEnd))) == AllTextsOf(rows)
  {
    if rows != [] {
      var next := PrintRows(rows[1..], newlineAtEnd);
      var tail := if |rows| == 1 then (if newlineAtEnd then [NEWLINE] else "") else [NEWLINE] + next;
      assert PrintRows(rows, newlineAtEnd) == PrintRow(rows[0]) + tail;
      FieldsOfRows(rows[1..], newlineAtEnd);
      hide PrintRow, TextsBack, Lines, AllFields;
      FieldsOfRow(rows[0], tail);
      FieldsOfTail(tail, next);
    }
  }

  lemma FieldsOfTail(tail: string, next: string)
    requires tail == [NEWLINE] + next || (next == "" && tail == "")
    ensures AllFields(Lines(tail)) == AllFields(Lines(next))
  {
    if tail != "" {
      NewlinesInFront(tail);
      NewlinesInFront(next);
      assert tail[1..] == next;
    }
  }

  lemma {:induction false} FewerTexts(rows: seq<seq<Cell>>)
    requires forall i :: 0 <= i < |rows| ==> rows[i] != []
    ensures |AllTextsOf(rows)| <= CellCount(rows)
    ensures |AllTextsOf(rows)| == CellCount(rows) ==> forall i :: 0 <= i < |rows| ==> rows[i][|rows[i]| - 1] != Bare("")
  {
    if rows != [] {
      AllTextsBack(rows[0]);
      FewerTexts(rows[1..]);
      assert forall i :: 0 < i < |rows| ==> rows[i] == rows[1..][i - 1];
    }
  }

  lemma {:induction false} EveryText(lines: seq<Fields>, rows: seq<seq<Cell>>)
    requires |lines| == |rows| && forall i :: 0 <= i < |rows| ==> lines[i].fields == Texts(rows[i])
    ensures |AllFields(lines)| == CellCount(rows)
  {
    if rows != [] {
      EveryText(lines[1..], rows[1..]);
    }
  }

  /** What is printed is parsed back, row by row and field by field and without an error, if and only if no row
      ends in an empty bare field. */
  lemma RowsBack(rows: seq<seq<Cell>>, newlineAtEnd: bool)
    requires forall i :: 0 <= i < |rows| ==> PrintableCells(rows[i])
    ensures ComesBack(rows, newlineAtEnd) <==> forall i :: 0 <= i < |rows| ==> PrintableRow(rows[i])
  {
    hide Lines, Texts;
    if ComesBack(rows, newlineAtEnd) {
      EveryText(Lines(PrintRows(rows, newlineAtEnd)), rows);
      FieldsOfRows(rows, newlineAtEnd);
      FewerTexts(rows);
    } else if forall i :: 0 <= i < |rows| ==> PrintableRow(rows[i]) {
      PrintableRowsBack(rows, newlineAtEnd);
    }
  }

  // ---- rows that end in a carriage return and a newline, as section 2 of RFC 4180 has them

  const RETURN: char := '\r'

  /** Each row with both characters after it. */
  function PrintCrLfRows(rows: seq<seq<Cell>>): string {
    if rows == [] then "" else PrintRow(rows[0]) + [RETURN] + [NEWLINE] + PrintCrLfRows(rows[1..])
  }

  /** What comes back: a carriage return is part of a bare last field, and a field of its own after a quoted one. */
  function TextsWithReturn(row: seq<Cell>): seq<string>
    requires row != []
  {
    if |row| > 1 then [row[0].text] + TextsWithReturn(row[1..])
    else
      match row[0]
      case Bare(text) => [text + [RETURN]]
      case Quoted(text) => [text, [RETURN]]
  }

  lemma BareReturnBack(text: string, tail: string)
    requires Printable(Bare(text)) && (tail == "" || tail[0] == NEWLINE)
    ensures LineFields(text + [RETURN] + tail) == Fields([text + [RETURN]], false, tail)
  {
    hide AnyField;
    BareBack(text + [RETURN], tail);
    EndOfLine(tail);
  }

  lemma QuotedReturnBack(text: string, tail: string)
    requires tail == "" || tail[0] == NEWLINE
    ensures LineFields(PrintCell(Quoted(text)) + ([RETURN] + tail)) == Fields([text, [RETURN]], false, tail)
  {
    QuotedThenReturn(text, [RETURN] + tail);
    hide AnyField, PrintCell;
    BareReturnBack("", tail);
    assert "" + [RETURN] + tail == [RETURN] + tail && "" + [RETURN] == [RETURN];
  }

  lemma QuotedThenReturn(text: string, after: string)
    requires after != "" && after[0] == RETURN
    ensures AnyField(PrintCell(Quoted(text)) + after) == Field(text, after)
  {
    hide QuotedField, Escaped;
    QuotedBack(text, after);
    assert (PrintCell(Quoted(text)) + after)[1..] == Escaped(text) + [QUOTE] + after;
  }

  lemma {:induction false} ReturnRowBack(row: seq<Cell>, tail: string)
    requires PrintableCells(row) && (tail == "" || tail[0] == NEWLINE)
    ensures LineFields(PrintRow(row) + ([RETURN] + tail)) == Fields(TextsWithReturn(row), false, tail)
  {
    hide AnyField, Escaped;
    if |row| == 1 {
      match row[0]
      case Bare(text) =>
        BareReturnBack(text, tail);
        assert text + [RETURN] + tail == text + ([RETURN] + tail);
      case Quoted(text) =>
        QuotedReturnBack(text, tail);
    } else {
      ReturnRowBack(row[1..], tail);
      hide PrintCell, LineFields;
      var more := PrintRow(row[1..]) + ([RETURN] + tail);
      assert PrintRow(row) + ([RETURN] + tail) == PrintCell(row[0]) + ([COMMA] + more);
      CellThenRow(row[0], more);
    }
  }

  lemma StartOfReturnRow(row: seq<Cell>)
    requires PrintableCells(row)
    ensures (PrintRow(row) + [RETURN])[0] != NEWLINE
  {
  }

  lemma {:induction false} StartOfCrLfRows(rows: seq<seq<Cell>>, rest: string)
    requires forall i :: 0 <= i < |rows| ==> PrintableCells(rows[i])
    requires rest == "" || rest[0] != NEWLINE
    ensures var s := PrintCrLfRows(rows) + rest; s == "" || s[0] != NEWLINE
  {
    if rows != [] {
      StartOfReturnRow(rows[0]);
      hide PrintRow;
      var s := PrintCrLfRows(rows) + rest;
      assert s[0] == (PrintRow(rows[0]) + [RETURN])[0];
    }
  }

  lemma ReturnLineBack(row: seq<Cell>, next: string)
    requires PrintableCells(row) && (next == "" || next[0] != NEWLINE)
    ensures Lines(PrintRow(row) + [RETURN] + [NEWLINE] + next) == [Fields(TextsWithReturn(row), false, next)] + Lines(next)
  {
    hide PrintRow, LineFields, TextsWithReturn;
    var s, tail := PrintRow(row) + [RETURN] + [NEWLINE] + next, [NEWLINE] + next;
    assert s == PrintRow(row) + ([RETURN] + tail);
    ReturnRowBack(row, tail);
    assert tail[1..] == next;
    assert SkipNewlines(next) == next;
    assert SkipNewlines(tail) == next;
  }

  /** Whatever follows, every row that is printed with a carriage return and a newline gives one line, without an
      error, and with the return in it. */
  lemma {:induction false} CrLfRowsBack(rows: seq<seq<Cell>>, rest: string)
    requires forall i :: 0 <= i < |rows| ==> PrintableCells(rows[i])
    requires rest == "" || rest[0] != NEWLINE
    ensures var lines := Lines(PrintCrLfRows(rows) + rest);
            && |lines| == |rows| + |Lines(rest)| && lines[|rows|..] == Lines(rest)
            && forall i :: 0 <= i < |rows| ==> rows[i] != [] && lines[i].fields == TextsWithReturn(rows[i]) && !lines[i].thrown
  {
    hide PrintRow, Lines, TextsWithReturn;
    if rows == [] {
      assert PrintCrLfRows(rows) + rest == rest;
    } else {
      var next := PrintCrLfRows(rows[1..]) + rest;
      assert PrintCrLfRows(rows) + rest == PrintRow(rows[0]) + [RETURN] + [NEWLINE] + next;
      StartOfCrLfRows(rows[1..], rest);
      CrLfRowsBack(rows[1..], rest);
      ReturnLineBack(rows[0], next);
      OneMoreLine(Fields(TextsWithReturn(rows[0]), false, next), Lines(next), |rows|);
    }
  }

  lemma OneMoreLine(line: Fields, lines: seq<Fields>, n: nat)
    requires 0 < n <= |lines| + 1
    ensures ([line] + lines)[n..] == lines[n - 1..]
  {
  }

  /** So no such row comes back as it was. */
  lemma {:induction false} ReturnNeverTexts(row: seq<Cell>)
    requires row != []
    ensures TextsWithReturn(row) != Texts(row)
  {
    if |row| > 1 {
      ReturnNeverTexts(row[1..]);
      assert TextsWithReturn(row)[1..] == TextsWithReturn(row[1..]) && Texts(row)[1..] == Texts(row[1..]);
    } else {
      assert Texts(row) == [row[0].text];
      match row[0]
      case Bare(text) => assert |text + [RETURN]| == |text| + 1;
      case Quoted(text) =>
    }
  }

  /** The shortest case of two quoted rows. */
  lemma ReturnIsAField()
    ensures Line("\"a\"\r\n\"b\"").fields == ["a", "\r"]
  {
    var rows := [[Quoted("a")]];
    assert rows[1..] == [];
    assert "\"a\"\r\n\"b\"" == PrintCrLfRows(rows) + "\"b\"";
    CrLfRowsBack(rows, "\"b\"");
  }
}

/** Tables of text, one list of fields per column, printed with columns as wide as their widest field. */
module AsciiTables {
  import opened Wrappers
  import opened TextLines

  datatype Column = Column(caption: string, align: string, fields: seq<string>)
  datatype Error = NoColumns | WrongNumFields(caption: string)

  /** A line of fields: the labels, or the fields of one row. */
  datatype Row = Header | Body(i: nat)

  function Repeat(c: char, n: int): (s: string)
    ensures |s| == (if n < 0 then 0 else n) && forall k :: 0 <= k < |s| ==> s[k] == c
  {
    if n <= 0 then "" else seq(n, i => c)
  }

  /** field.rjust(width) for "R" and field.ljust(width) otherwise, between a space and " |". */
  function TableField(field: string, width: nat, just: string): string {
    if just == "R" then " " + (Repeat(' ', width - |field|) + field) + " |"
    else " " + (field + Repeat(' ', width - |field|)) + " |"
  }

  function Longest(fields: seq<string>, atLeast: nat): (w: nat)
    ensures atLeast <= w && forall k :: 0 <= k < |fields| ==> |fields[k]| <= w
    ensures w == atLeast || exists k :: 0 <= k < |fields| && |fields[k]| == w
  {
    if fields == [] then atLeast
    else
      var n, w := |fields| - 1, Longest(fields[..|fields| - 1], atLeast);
      assert forall k :: 0 <= k < n ==> fields[..n][k] == fields[k];
      if w < |fields[n]| then |fields[n]| else w
  }

  function Width(c: Column): nat {
    Longest(c.fields, |c.caption|)
  }

  /** Where column `n` starts, counting the left border. */
  function Start(table: seq<Column>, n: nat): (s: nat)
    requires n <= |table|
  {
    if n == 0 then 1 else Start(table, n - 1) + Width(table[n - 1]) + 3
  }

  ghost predicate HasRow(table: seq<Column>, row: Row) {
    row.Body? ==> forall c :: 0 <= c < |table| ==> row.i < |table[c].fields|
  }

  function FieldOf(c: Column, row: Row): string
    requires row.Body? ==> row.i < |c.fields|
  {
    match row
    case Header => c.caption
    case Body(i) => c.fields[i]
  }

  function JustOf(c: Column, row: Row): string {
    if row.Header? then "L" else c.align
  }

  function Cell(table: seq<Column>, row: Row, c: nat): string
    requires c < |table| && HasRow(table, row)
  {
    TableField(FieldOf(table[c], row), Width(table[c]), JustOf(table[c], row))
  }

  /** The left border and the first `n` columns of a line. */
  function LineTo(table: seq<Column>, row: Row, n: nat): string
    requires n <= |table| && HasRow(table, row)
  {
    if n == 0 then "|" else LineTo(table, row, n - 1) + Cell(table, row, n - 1)
  }

  function RuleTo(table: seq<Column>, n: nat): string
    requires n <= |table|
  {
    if n == 0 then "|" else RuleTo(table, n - 1) + (Repeat('-', Width(table[n - 1]) + 2) + "|")
  }

  predicate IsRectangular(table: seq<Column>) {
    table != [] && forall c :: 0 <= c < |table| ==> |table[c].fields| == |table[0].fields|
  }

  lemma RowsExist(table: seq<Column>, k: nat)
    requires IsRectangular(table) && k < |table[0].fields|
    ensures HasRow(table, Body(k))
  {
  }

  /** The lines of the first `n` rows. */
  function BodyLines(table: seq<Column>, n: nat): seq<string>
    requires IsRectangular(table) && n <= |table[0].fields|
  {
    seq(n, k requires 0 <= k < n => RowsExist(table, k); LineTo(table, Body(k), |table|))
  }

  function Border(table: seq<Column>): string {
    Repeat('-', Start(table, |table|))
  }

  function HeadLines(table: seq<Column>): seq<string> {
    [Border(table), LineTo(table, Header, |table|), RuleTo(table, |table|)]
  }

  function TableLines(table: seq<Column>): seq<string>
    requires IsRectangular(table)
  {
    HeadLines(table) + BodyLines(table, |table[0].fields|) + [Border(table)]
  }

  /** The first column whose number of fields is not that of the first column. */
  function FirstBad(table: seq<Column>): (n: nat)
    requires table != []
    ensures n <= |table| && forall c :: 0 <= c < n ==> |table[c].fields| == |table[0].fields|
    ensures n < |table| ==> |table[n].fields| != |table[0].fields|
  {
    FirstBadFrom(table, 0)
  }

  function FirstBadFrom(table: seq<Column>, from: nat): (n: nat)
    requires from <= |table| && table != []
    requires forall c :: 0 <= c < from ==> |table[c].fields| == |table[0].fields|
    ensures from <= n <= |table| && forall c :: 0 <= c < n ==> |table[c].fields| == |table[0].fields|
    ensures n < |table| ==> |table[n].fields| != |table[0].fields|
    decreases |table| - from
  {
    if from == |table| || |table[from].fields| != |table[0].fields| then from else FirstBadFrom(table, from + 1)
  }

  method GetTableField(field: string, width: nat, just: string) returns (s: string)
    ensures s == TableField(field, width, just)
    ensures |field| <= width ==> |s| == width + 3 && field <= s[if just == "R" then 1 + width - |field| else 1..]
  {
    if just == "R" {
      return " " + (Repeat(' ', width - |field|) + field) + " |";
    }
    return " " + (field + Repeat(' ', width - |field|)) + " |";
  }

  method MaxFieldWidth(c: Column) returns (maxFieldWidth: nat)
    ensures maxFieldWidth == Width(c)
  {
    maxFieldWidth := |c.caption|;
    var i := 0;
    while i < |c.fields|
      invariant i <= |c.fields| && maxFieldWidth == Longest(c.fields[..i], |c.caption|)
    {
      assert c.fields[..i + 1][..i] == c.fields[..i];
      var fieldWidth := |c.fields[i]|;
      if fieldWidth > maxFieldWidth {
        maxFieldWidth := fieldWidth;
      }
      i := i + 1;
    }
    assert c.fields[..|c.fields|] == c.fields;
  }

  method TableWidths(table: seq<Column>) returns (r: Result<(nat, seq<nat>), Error>)
    requires table != []
    ensures r.Success? <==> IsRectangular(table)
    ensures r.Success? ==> r.value.0 == Start(table, |table|) && |r.value.1| == |table|
    ensures r.Success? ==> forall k :: 0 <= k < |table| ==> r.value.1[k] == Width(table[k])
    ensures r.Failure? ==> r.error == WrongNumFields(table[FirstBad(table)].caption)
  {
    var numRows := |table[0].fields|;
    var fullTableWidth: nat, tableFieldWidth: seq<nat> := 1, [];
    var i := 0;
    while i < |table|
      invariant i <= |table| && |tableFieldWidth| == i
      invariant forall c :: 0 <= c < i ==> |table[c].fields| == numRows
      invariant fullTableWidth == Start(table, i)
      invariant forall k :: 0 <= k < i ==> tableFieldWidth[k] == Width(table[k])
    {
      if |table[i].fields| != numRows {
        return Failure(WrongNumFields(table[i].caption));
      }
      var maxFieldWidth := MaxFieldWidth(table[i]);
      fullTableWidth := fullTableWidth + (maxFieldWidth + 3);
      tableFieldWidth := tableFieldWidth + [maxFieldWidth];
      i := i + 1;
    }
    return Success((fullTableWidth, tableFieldWidth));
  }

  method TableLine(table: seq<Column>, widths: seq<nat>, row: Row) returns (line: string)
    requires HasRow(table, row) && |widths| == |table| && forall k :: 0 <= k < |table| ==> widths[k] == Width(table[k])
    ensures line == LineTo(table, row, |table|)
  {
    hide TableField, FieldOf, Width, JustOf;
    line := "|";
    var i := 0;
    while i < |table|
      invariant i <= |table| && line == LineTo(table, row, i)
    {
      var field := GetTableField(FieldOf(table[i], row), widths[i], JustOf(table[i], row));
      assert field == Cell(table, row, i);
      line := line + field;
      i := i + 1;
    }
  }

  method TableRule(table: seq<Column>, widths: seq<nat>) returns (line: string)
    requires |widths| == |table| && forall k :: 0 <= k < |table| ==> widths[k] == Width(table[k])
    ensures line == RuleTo(table, |table|)
  {
    hide Width, Repeat;
    line := "|";
    var i := 0;
    while i < |table|
      invariant i <= |table| && line == RuleTo(table, i)
    {
      line := line + (Repeat('-', widths[i] + 2) + "|");
      i := i + 1;
    }
  }

  method CreateAsciiTable(table: seq<Column>) returns (r: Result<string, Error>)
    ensures table == [] ==> r == Failure(NoColumns)
    ensures table != [] && !IsRectangular(table) ==> r == Failure(WrongNumFields(table[FirstBad(table)].caption))
    ensures IsRectangular(table) ==> r == Success(Unlines(TableLines(table)))
  {
    if table == [] {
      return Failure(NoColumns);
    }
    var numRows := |table[0].fields|;
    var sizes := TableWidths(table);
    if sizes.Failure? {
      return Failure(sizes.error);
    }
    hide Unlines, LineTo, RuleTo, Width, Repeat, HasRow, BodyLines, IsRectangular;
    var (fullTableWidth, widths) := sizes.value;
    var header := TableLine(table, widths, Header);
    var rule := TableRule(table, widths);
    var text := Repeat('-', fullTableWidth) + "\n" + header + "\n" + rule + "\n";
    HeadText(Border(table), header, rule);
    assert text == Unlines(HeadLines(table));
    var rows := TableBody(table, widths, HeadLines(table), text);
    UnlinesOneMore(HeadLines(table) + BodyLines(table, numRows), Border(table));
    return Success(rows + Repeat('-', fullTableWidth) + "\n");
  }

  /** Every row's line behind the text so far. */
  method TableBody(table: seq<Column>, widths: seq<nat>, ghost head: seq<string>, before: string) returns (text: string)
    requires IsRectangular(table) && before == Unlines(head)
    requires |widths| == |table| && forall k :: 0 <= k < |table| ==> widths[k] == Width(table[k])
    ensures text == Unlines(head + BodyLines(table, |table[0].fields|))
  {
    hide Unlines, LineTo, Width, HasRow;
    var numRows := |table[0].fields|;
    text := before;
    var i := 0;
    assert head + BodyLines(table, 0) == head;
    while i < numRows
      invariant i <= numRows && text == Unlines(head + BodyLines(table, i))
    {
      RowsExist(table, i);
      var line := TableLine(table, widths, Body(i));
      UnlinesOneMore(head + BodyLines(table, i), line);
      OneMoreRow(table, i);
      assert head + BodyLines(table, i) + [line] == head + (BodyLines(table, i) + [line]);
      text := text + line + "\n";
      i := i + 1;
    }
  }

  lemma OneMoreRow(table: seq<Column>, n: nat)
    requires IsRectangular(table) && n < |table[0].fields|
    ensures HasRow(table, Body(n))
    ensures BodyLines(table, n + 1) == BodyLines(table, n) + [LineTo(table, Body(n), |table|)]
  {
    hide LineTo;
    RowsExist(table, n);
  }

  lemma HeadText(a: string, b: string, c: string)
    ensures Unlines([a, b, c]) == a + "\n" + b + "\n" + c + "\n"
  {
    assert [a, b, c][1..] == [b, c] && [b, c][1..] == [c] && [c][1..] == [];
    assert Unlines([c]) == c + "\n";
  }

  lemma UnlinesOneMore(lines: seq<string>, line: string)
    ensures Unlines(lines + [line]) == Unlines(lines) + line + "\n"
  {
    UnlinesAppend(lines, [line]);
    assert [line][1..] == [];
    assert Unlines([line]) == line + "\n";
  }

  // ---------- every field can be read back ----------

  function TrimLeft(s: string): string {
    if s != "" && s[0] == ' ' then TrimLeft(s[1..]) else s
  }

  function TrimRight(s: string): string {
    if s != "" && s[|s| - 1] == ' ' then TrimRight(s[..|s| - 1]) else s
  }

  lemma {:induction false} TrimLeftPadding(n: nat, s: string)
    requires s != "" ==> s[0] != ' '
    ensures TrimLeft(Repeat(' ', n) + s) == s
  {
    if n == 0 {
      assert Repeat(' ', n) + s == s;
    } else {
      hide Repeat;
      TrimLeftPadding(n - 1, s);
      assert (Repeat(' ', n) + s)[1..] == Repeat(' ', n - 1) + s;
    }
  }

  lemma {:induction false} TrimRightPadding(n: nat, s: string)
    requires s != "" ==> s[|s| - 1] != ' '
    ensures TrimRight(s + Repeat(' ', n)) == s
  {
    if n == 0 {
      assert s + Repeat(' ', n) == s;
    } else {
      hide Repeat;
      TrimRightPadding(n - 1, s);
      var padding, shorter := Repeat(' ', n), Repeat(' ', n - 1);
      assert padding[..n - 1] == shorter;
      var t := s + padding;
      assert t[|t| - 1] == padding[n - 1] == ' ';
      assert t[..|t| - 1] == s + padding[..n - 1];
    }
  }

  lemma CellLength(field: string, width: nat, just: string)
    requires |field| <= width
    ensures |TableField(field, width, just)| == width + 3
    ensures '\n' !in field ==> '\n' !in TableField(field, width, just)
  {
    var padding := Repeat(' ', width - |field|);
    assert '\n' !in padding;
  }

  lemma CellFits(table: seq<Column>, row: Row, c: nat)
    requires c < |table| && HasRow(table, row)
    ensures |Cell(table, row, c)| == Width(table[c]) + 3
    ensures '\n' !in FieldOf(table[c], row) ==> '\n' !in Cell(table, row, c)
  {
    CellLength(FieldOf(table[c], row), Width(table[c]), JustOf(table[c], row));
  }

  ghost predicate StandsAt(cell: string, line: string, s: nat) {
    s + |cell| <= |line| && forall k :: 0 <= k < |cell| ==> cell[k] == line[s + k]
  }

  /** A line is as long as its columns need, and each column's field stands at that column's start. */
  lemma {:induction false} FieldIsInItsColumn(table: seq<Column>, row: Row, n: nat, c: nat)
    requires c < n <= |table| && HasRow(table, row)
    ensures |LineTo(table, row, n)| == Start(table, n)
    ensures Start(table, c) + Width(table[c]) + 3 <= Start(table, n)
    ensures StandsAt(Cell(table, row, c), LineTo(table, row, n), Start(table, c))
  {
    hide Width, Cell, HasRow;
    LineIsFull(table, row, n - 1);
    CellFits(table, row, n - 1);
    if c < n - 1 {
      FieldIsInItsColumn(table, row, n - 1, c);
    }
  }

  lemma {:induction false} LineIsFull(table: seq<Column>, row: Row, n: nat)
    requires n <= |table| && HasRow(table, row)
    ensures |LineTo(table, row, n)| == Start(table, n)
  {
    hide Width, Cell, HasRow;
    if n > 0 {
      LineIsFull(table, row, n - 1);
      CellFits(table, row, n - 1);
    }
  }

  lemma {:induction false} RuleIsFull(table: seq<Column>, n: nat)
    requires n <= |table|
    ensures |RuleTo(table, n)| == Start(table, n) && '\n' !in RuleTo(table, n)
  {
    hide Width;
    if n > 0 {
      RuleIsFull(table, n - 1);
    }
  }

  ghost predicate OneLineFields(table: seq<Column>) {
    forall c :: 0 <= c < |table| ==>
      '\n' !in table[c].caption && forall k :: 0 <= k < |table[c].fields| ==> '\n' !in table[c].fields[k]
  }

  lemma CellIsOneLine(table: seq<Column>, row: Row, c: nat)
    requires c < |table| && HasRow(table, row) && OneLineFields(table)
    ensures IsOneLine(Cell(table, row, c))
  {
    assert '\n' !in FieldOf(table[c], row);
    hide Cell;
    CellFits(table, row, c);
  }

  lemma OneLineTogether(a: string, b: string)
    requires IsOneLine(a) && IsOneLine(b)
    ensures IsOneLine(a + b)
  {
  }

  lemma NextCell(table: seq<Column>, row: Row, n: nat)
    requires 0 < n <= |table| && HasRow(table, row)
    ensures LineTo(table, row, n) == LineTo(table, row, n - 1) + Cell(table, row, n - 1)
  {
    hide Cell, HasRow;
  }

  predicate IsOneLine(s: string) {
    '\n' !in s
  }

  lemma LineStart(table: seq<Column>, row: Row)
    requires HasRow(table, row)
    ensures IsOneLine(LineTo(table, row, 0))
  {
  }

  lemma {:induction false} LineIsOneLine(table: seq<Column>, row: Row, n: nat)
    requires n <= |table| && HasRow(table, row) && OneLineFields(table)
    ensures IsOneLine(LineTo(table, row, n))
  {
    hide LineTo, Cell, OneLineFields, HasRow, IsOneLine;
    if n == 0 {
      LineStart(table, row);
    } else {
      CellIsOneLine(table, row, n - 1);
      NextCell(table, row, n);
      LineIsOneLine(table, row, n - 1);
      OneLineTogether(LineTo(table, row, n - 1), Cell(table, row, n - 1));
    }
  }

  /** The printed table has four more lines than rows, all of the same length. */
  lemma TableIsRectangular(table: seq<Column>)
    requires IsRectangular(table) && OneLineFields(table)
    ensures SplitLines(Unlines(TableLines(table))) == TableLines(table)
    ensures |TableLines(table)| == |table[0].fields| + 4
    ensures forall k :: 0 <= k < |TableLines(table)| ==> |TableLines(table)[k]| == Start(table, |table|)
  {
    hide SplitLines, Unlines, LineTo, RuleTo, Start;
    var lines := TableLines(table);
    RuleIsFull(table, |table|);
    LineIsFull(table, Header, |table|);
    LineIsOneLine(table, Header, |table|);
    forall k | 0 <= k < |lines|
      ensures |lines[k]| == Start(table, |table|) && '\n' !in lines[k]
    {
      if 3 <= k < |lines| - 1 {
        LineIsFull(table, Body(k - 3), |table|);
        LineIsOneLine(table, Body(k - 3), |table|);
      }
    }
    SplitUnlines(lines, "");
    NoLines();
    assert Unlines(lines) + "" == Unlines(lines) && lines + [] == lines;
  }

  lemma NoLines()
    ensures SplitLines("") == []
  {
  }

  /** Taking the padding off. */
  function Unpad(span: string, align: string): string {
    if align == "R" then TrimLeft(span) else TrimRight(span)
  }

  /** No space on the side where the padding goes. */
  predicate IsUnpadded(field: string, align: string) {
    field == "" || (if align == "R" then field[0] else field[|field| - 1]) != ' '
  }

  /** Each field comes back from its column span by taking the padding off. */
  lemma FieldIsReadBack(table: seq<Column>, c: nat, k: nat)
    requires IsRectangular(table) && c < |table| && k < |table[0].fields|
    requires IsUnpadded(table[c].fields[k], table[c].align)
    ensures var line, s, w := TableLines(table)[3 + k], Start(table, c) + 1, Width(table[c]);
      s + w <= |line| && Unpad(line[s..s + w], table[c].align) == table[c].fields[k]
  {
    hide *;
    RowLine(table, k);
    CellInTableIsReadBack(table, c, k);
    FieldIsInItsColumn(table, Body(k), |table|, c);
    SpanOfCell(TableLines(table)[3 + k], Start(table, c), Width(table[c]), Cell(table, Body(k), c));
  }

  lemma RowLine(table: seq<Column>, k: nat)
    requires IsRectangular(table) && k < |table[0].fields|
    ensures HasRow(table, Body(k)) && forall c :: 0 <= c < |table| ==> k < |table[c].fields|
    ensures |TableLines(table)| == |table[0].fields| + 4 && TableLines(table)[3 + k] == LineTo(table, Body(k), |table|)
  {
    RowsExist(table, k);
    BodyLine(table, |table[0].fields|, k);
    hide LineTo, Border, HasRow, BodyLines, RuleTo;
  }

  lemma BodyLine(table: seq<Column>, n: nat, k: nat)
    requires IsRectangular(table) && k < n <= |table[0].fields|
    ensures HasRow(table, Body(k)) && |BodyLines(table, n)| == n
    ensures BodyLines(table, n)[k] == LineTo(table, Body(k), |table|)
  {
    RowsExist(table, k);
    hide LineTo, HasRow;
  }

  lemma CellInTableIsReadBack(table: seq<Column>, c: nat, k: nat)
    requires c < |table| && k < |table[c].fields| && HasRow(table, Body(k))
    requires IsUnpadded(table[c].fields[k], table[c].align)
    ensures |Cell(table, Body(k), c)| == Width(table[c]) + 3
    ensures Unpad(Cell(table, Body(k), c)[1..1 + Width(table[c])], table[c].align) == table[c].fields[k]
  {
    hide TableField, Unpad, IsUnpadded;
    CellIsReadBack(table[c].fields[k], Width(table[c]), table[c].align);
  }

  lemma SpanOfCell(line: string, s: nat, w: nat, cell: string)
    requires |cell| == w + 3 && StandsAt(cell, line, s)
    ensures s + w + 3 <= |line| && line[s + 1..s + 1 + w] == cell[1..1 + w]
  {
  }

  lemma CellIsReadBack(field: string, w: nat, align: string)
    requires |field| <= w && IsUnpadded(field, align)
    ensures |TableField(field, w, align)| == w + 3
    ensures Unpad(TableField(field, w, align)[1..1 + w], align) == field
  {
    hide TrimLeft, TrimRight;
    var cell := TableField(field, w, align);
    if align == "R" {
      assert cell[1..1 + w] == Repeat(' ', w - |field|) + field;
      TrimLeftPadding(w - |field|, field);
    } else {
      assert cell[1..1 + w] == field + Repeat(' ', w - |field|);
      TrimRightPadding(w - |field|, field);
    }
  }

  lemma HeadLine(table: seq<Column>)
    requires IsRectangular(table)
    ensures |TableLines(table)| == |table[0].fields| + 4
    ensures TableLines(table)[1] == LineTo(table, Header, |table|) && TableLines(table)[2] == RuleTo(table, |table|)
    ensures TableLines(table)[0] == Border(table) == TableLines(table)[|TableLines(table)| - 1]
  {
    hide LineTo, Border, HasRow, RuleTo;
  }

  /** Each caption comes back from the second line in the same way; captions are always padded on the right. */
  lemma CaptionIsReadBack(table: seq<Column>, c: nat)
    requires IsRectangular(table) && c < |table| && IsUnpadded(table[c].caption, "L")
    ensures var line, s, w := TableLines(table)[1], Start(table, c) + 1, Width(table[c]);
      s + w <= |line| && Unpad(line[s..s + w], "L") == table[c].caption
  {
    hide *;
    CaptionInCell(table, c);
    HeadLine(table);
    HeaderExists(table);
    FieldIsInItsColumn(table, Header, |table|, c);
    SpanOfCell(TableLines(table)[1], Start(table, c), Width(table[c]), Cell(table, Header, c));
  }

  lemma HeaderExists(table: seq<Column>)
    ensures HasRow(table, Header)
  {
  }

  lemma CaptionInCell(table: seq<Column>, c: nat)
    requires c < |table| && IsUnpadded(table[c].caption, "L")
    ensures HasRow(table, Header) && |Cell(table, Header, c)| == Width(table[c]) + 3
    ensures Unpad(Cell(table, Header, c)[1..1 + Width(table[c])], "L") == table[c].caption
  {
    hide TableField, IsUnpadded, Unpad;
    CellIsReadBack(table[c].caption, Width(table[c]), "L");
  }

  // ---------- the rules around the fields ----------

  /** In every line with fields a column has a space at both ends and a bar behind it. */
  lemma ColumnsAreBarred(table: seq<Column>, row: Row, c: nat)
    requires c < |table| && HasRow(table, row)
    ensures var line, s, e := LineTo(table, row, |table|), Start(table, c), Start(table, c) + Width(table[c]) + 2;
      e < |line| && line[0] == '|' && line[s] == ' ' && line[e - 1] == ' ' && line[e] == '|'
  {
    hide *;
    CellEnds(table, row, c);
    FieldIsInItsColumn(table, row, |table|, c);
    StartsWithBar(table, row, |table|);
    EndsStand(LineTo(table, row, |table|), Start(table, c), Cell(table, row, c));
  }

  lemma CellEnds(table: seq<Column>, row: Row, c: nat)
    requires c < |table| && HasRow(table, row)
    ensures var cell := Cell(table, row, c);
      |cell| == Width(table[c]) + 3 && cell[0] == ' ' && cell[|cell| - 2] == ' ' && cell[|cell| - 1] == '|'
  {
    CellFits(table, row, c);
    hide Width, Repeat, FieldOf, JustOf, HasRow;
  }

  lemma EndsStand(line: string, s: nat, cell: string)
    requires StandsAt(cell, line, s) && |cell| >= 3
    ensures s + |cell| <= |line| && line[s] == cell[0]
    ensures line[s + |cell| - 2] == cell[|cell| - 2] && line[s + |cell| - 1] == cell[|cell| - 1]
  {
    assert cell[0] == line[s + 0];
  }

  lemma {:induction false} StartsWithBar(table: seq<Column>, row: Row, n: nat)
    requires n <= |table| && HasRow(table, row)
    ensures LineTo(table, row, n) != "" && LineTo(table, row, n)[0] == '|'
  {
    hide Cell, HasRow;
    if n > 0 {
      StartsWithBar(table, row, n - 1);
    }
  }

  /** In the rule under the captions a column consists of dashes, with a bar behind it. */
  lemma {:induction false} RuleIsDashed(table: seq<Column>, n: nat, c: nat)
    requires c < n <= |table|
    ensures |RuleTo(table, n)| == Start(table, n) && Start(table, c) + Width(table[c]) + 2 < Start(table, n)
    ensures var line, s, e := RuleTo(table, n), Start(table, c), Start(table, c) + Width(table[c]) + 2;
      line[e] == '|' && forall k :: s <= k < e ==> line[k] == '-'
  {
    hide Width;
    RuleIsFull(table, n - 1);
    RuleIsFull(table, n);
    if c < n - 1 {
      RuleIsDashed(table, n - 1, c);
    }
  }

  /** The first and the last line consist of dashes. */
  lemma BordersAreDashes(table: seq<Column>)
    requires IsRectangular(table)
    ensures var first, last := TableLines(table)[0], TableLines(table)[|table[0].fields| + 3];
      first == last && forall k :: 0 <= k < |first| ==> first[k] == '-'
  {
    HeadLine(table);
  }
}

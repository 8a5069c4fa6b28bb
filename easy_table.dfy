/** The table builder: columns (a header and the name of the accessor that
    yields each row's value) and rows are collected in insertion order,
    and `Run` renders them as comma-separated text, a header line and one
    line per row, without a trailing newline. */
module EasyTable {
  import opened Delimited

  /** One column: its header text and the name its accessor is looked up
      by (the source's `method` field; `method` is a Dafny keyword). */
  datatype Column = Column(name: string, accessor: string)

  // ---------------------------------------------------------------------
  // What the rendering means, independently of the loops that build it.
  // ---------------------------------------------------------------------

  /** The headers, in column order. */
  function Headers(cols: seq<Column>): seq<string>
  {
    seq(|cols|, i requires 0 <= i < |cols| => cols[i].name)
  }

  /** The values of one row, in column order: the accessor applied to the
      row and each column's accessor name. */
  function Values<T>(call: (T, string) -> string, row: T, cols: seq<Column>): seq<string>
  {
    seq(|cols|, i requires 0 <= i < |cols| => call(row, cols[i].accessor))
  }

  /** The header line: the headers joined by commas. */
  function HeaderLine(cols: seq<Column>): string
  {
    Join(Headers(cols), ',')
  }

  /** The line of one row: its values joined by commas. */
  function RowLine<T>(call: (T, string) -> string, cols: seq<Column>, row: T): string
  {
    Join(Values(call, row, cols), ',')
  }

  /** The lines of all rows, in insertion order. */
  function RowLines<T>(call: (T, string) -> string, cols: seq<Column>, rows: seq<T>): seq<string>
  {
    seq(|rows|, i requires 0 <= i < |rows| => RowLine(call, cols, rows[i]))
  }

  /** The header line followed by the row lines. */
  function Lines<T>(call: (T, string) -> string, cols: seq<Column>, rows: seq<T>): seq<string>
  {
    [HeaderLine(cols)] + RowLines(call, cols, rows)
  }

  /** The rendered table: the lines joined by newlines. Without columns the
      text is empty whatever the rows are (see ZeroColumnsDropRowLines). */
  function Table<T>(call: (T, string) -> string, cols: seq<Column>, rows: seq<T>): string
  {
    if cols == [] then "" else Join(Lines(call, cols, rows), '\n')
  }

  /** The cells the table shows: the headers, then each row's values. */
  function Cells<T>(call: (T, string) -> string, cols: seq<Column>, rows: seq<T>): seq<seq<string>>
  {
    [Headers(cols)] + seq(|rows|, i requires 0 <= i < |rows| => Values(call, rows[i], cols))
  }

  /** Reading rendered text back: lines split at newlines, fields at commas. */
  function Parse(text: string): seq<seq<string>>
  {
    var lines := Split(text, '\n');
    seq(|lines|, i requires 0 <= i < |lines| => Split(lines[i], ','))
  }

  /** A cell that the unescaped format can carry: no comma, no newline. */
  predicate Plain(cell: string)
  {
    ',' !in cell && '\n' !in cell
  }

  // ---------------------------------------------------------------------
  // The builder.
  // ---------------------------------------------------------------------

  class Builder<T> {
    var cols: seq<Column>
    var rows: seq<T>

    /** `Builder::new`: no columns, no rows. */
    constructor ()
      ensures cols == [] && rows == []
    {
      cols := [];
      rows := [];
    }

    /** `column`: appends one column and hands back the same builder, so
        that calls can be chained. */
    method AddColumn(name: string, accessor: string) returns (handle: Builder<T>)
      modifies this
      ensures cols == old(cols) + [Column(name, accessor)]
      ensures rows == old(rows)
      ensures handle == this
    {
      var col := Column(name, accessor);
      cols := cols + [col];
      handle := this;
    }

    /** `row`: appends one row object and hands back the same builder. */
    method AddRow(obj: T) returns (handle: Builder<T>)
      modifies this
      ensures rows == old(rows) + [obj]
      ensures cols == old(cols)
      ensures handle == this
    {
      rows := rows + [obj];
      handle := this;
    }

    /** `write_cols`: pushes every header and a comma, pops the last
        character (the last comma, or with no columns whatever the buffer
        ended with) and pushes a newline. */
    method WriteCols(result: string) returns (res: string)
      ensures cols != [] ==> res == result + HeaderLine(cols) + "\n"
      ensures cols == [] ==> res == Pop(result) + "\n"
      ensures |res| > 0 && res[|res| - 1] == '\n'
    {
      res := result;
      for i := 0 to |cols|
        invariant res == result + Terminated(Headers(cols)[..i], ',')
      {
        TerminatedStep(Headers(cols), i, ',');
        res := res + cols[i].name;
        res := res + [','];
      }
      assert Headers(cols)[..|cols|] == Headers(cols);
      if cols != [] {
        PopTerminated(result, Headers(cols), ',');
      }
      res := Pop(res);
      res := res + ['\n'];
    }

    /** One pass of the outer loop of `write_rows`: pushes every value of
        the row and a comma, pops the last character (the last comma, or
        with no columns whatever the buffer ended with) and pushes a
        newline. */
    method WriteRow(call: (T, string) -> string, row: T, result: string) returns (res: string)
      ensures cols != [] ==> res == result + RowLine(call, cols, row) + "\n"
      ensures cols == [] ==> res == Pop(result) + "\n"
    {
      res := result;
      ghost var values := Values(call, row, cols);
      for j := 0 to |cols|
        invariant res == result + Terminated(values[..j], ',')
      {
        TerminatedStep(values, j, ',');
        res := res + call(row, cols[j].accessor);
        res := res + [','];
      }
      assert values[..|cols|] == values;
      if cols != [] {
        PopTerminated(result, values, ',');
      }
      res := Pop(res);
      res := res + ['\n'];
    }

    /** `write_rows`: one line per row, each ended by a newline. With no
        columns each row's pop takes away the newline pushed just before,
        so the buffer only has its last character replaced by a newline. */
    method WriteRows(call: (T, string) -> string, result: string) returns (res: string)
      ensures cols != [] ==> res == result + Terminated(RowLines(call, cols, rows), '\n')
      ensures cols == [] ==> res == if rows == [] then result else Pop(result) + "\n"
      ensures |result| > 0 && result[|result| - 1] == '\n' ==> |res| > 0 && res[|res| - 1] == '\n'
    {
      res := result;
      ghost var lines := RowLines(call, cols, rows);
      for i := 0 to |rows|
        invariant cols != [] ==> res == result + Terminated(lines[..i], '\n')
        invariant cols == [] ==> res == if i == 0 then result else Pop(result) + "\n"
      {
        if cols != [] {
          TerminatedStep(lines, i, '\n');
        }
        res := WriteRow(call, rows[i], res);
      }
      assert lines[..|rows|] == lines;
    }

    /** `run`: the header line, then the row lines, then one pop that takes
        away the final newline. Nothing is modified, so calling it again
        without adding columns or rows gives the same text. */
    method Run(call: (T, string) -> string) returns (r: string)
      ensures r == Table(call, cols, rows)
    {
      var result := "";
      result := WriteCols(result);
      result := WriteRows(call, result);
      if cols != [] {
        var lines := Lines(call, cols, rows);
        assert Terminated([HeaderLine(cols)], '\n') == "" + HeaderLine(cols) + "\n";
        TerminatedAppend([HeaderLine(cols)], RowLines(call, cols, rows), '\n');
        PopTerminated("", lines, '\n');
        assert "" + Join(lines, '\n') == Join(lines, '\n');
      }
      result := Pop(result);
      r := result;
    }
  }

  // ---------------------------------------------------------------------
  // Properties of the rendering.
  // ---------------------------------------------------------------------

  /** With columns and no rows the text is the header line alone, with no
      trailing comma and no newline. */
  lemma HeaderOnly<T>(call: (T, string) -> string, cols: seq<Column>)
    requires cols != []
    ensures Table(call, cols, []) == Join(Headers(cols), ',')
  {
    assert Lines(call, cols, []) == [HeaderLine(cols)];
  }

  /** Adding a row adds a newline and that row's line at the end, and
      leaves the text before it as it was: rows appear in insertion order. */
  lemma AppendRow<T>(call: (T, string) -> string, cols: seq<Column>, rows: seq<T>, row: T)
    requires cols != []
    ensures Table(call, cols, rows + [row]) == Table(call, cols, rows) + "\n" + RowLine(call, cols, row)
  {
    var lines := Lines(call, cols, rows + [row]);
    assert lines[..|lines| - 1] == Lines(call, cols, rows);
  }

  /** Rows added after others render after them: the text of the earlier
      rows is kept, followed by a newline and the later rows' lines. */
  lemma {:induction false} AppendRows<T>(call: (T, string) -> string, cols: seq<Column>, rows: seq<T>, more: seq<T>)
    requires cols != [] && more != []
    ensures Table(call, cols, rows + more) == Table(call, cols, rows) + "\n" + Join(RowLines(call, cols, more), '\n')
  {
    var n := |more|;
    if n == 1 {
      AppendRow(call, cols, rows, more[0]);
      assert more == [more[0]];
      assert RowLines(call, cols, more) == [RowLine(call, cols, more[0])];
    } else {
      var init := more[..n - 1];
      AppendRows(call, cols, rows, init);
      assert rows + more == (rows + init) + [more[n - 1]];
      AppendRow(call, cols, rows + init, more[n - 1]);
      assert RowLines(call, cols, more)[..n - 1] == RowLines(call, cols, init);
    }
  }

  /** Without columns every row's pop removes the newline pushed before it,
      so the text is empty; joining one (empty) line per row, as a
      line-per-row reading of the format would, gives one newline per row. */
  lemma {:induction false} ZeroColumnsDropRowLines<T>(call: (T, string) -> string, rows: seq<T>)
    ensures Table(call, [], rows) == ""
    ensures Join(Lines(call, [], rows), '\n') == seq(|rows|, _ => '\n')
  {
    if rows != [] {
      var init := rows[..|rows| - 1];
      ZeroColumnsDropRowLines(call, init);
      var lines := Lines(call, [], rows);
      assert lines[..|lines| - 1] == Lines(call, [], init);
      assert lines[|lines| - 1] == "";
    }
  }

  /** Reading the text back gives the headers and every row's values, as
      long as no header or value contains a comma or a newline. */
  lemma ParseTable<T>(call: (T, string) -> string, cols: seq<Column>, rows: seq<T>)
    requires cols != []
    requires forall c :: c in cols ==> Plain(c.name)
    requires forall row, c :: row in rows && c in cols ==> Plain(call(row, c.accessor))
    ensures Parse(Table(call, cols, rows)) == Cells(call, cols, rows)
  {
    var lines := Lines(call, cols, rows);
    var cells := Cells(call, cols, rows);
    assert |lines| == |cells|;
    forall i | 0 <= i < |lines|
      ensures Free(cells[i], ',') && Free(cells[i], '\n') && |cells[i]| > 0
      ensures lines[i] == Join(cells[i], ',')
    {
      if i > 0 {
        assert rows[i - 1] in rows;
        assert forall k :: 0 <= k < |cols| ==> cols[k] in cols;
      } else {
        assert forall k :: 0 <= k < |cols| ==> cols[k] in cols;
      }
    }
    forall i | 0 <= i < |lines|
      ensures '\n' !in lines[i]
      ensures Split(lines[i], ',') == cells[i]
    {
      JoinExcludes(cells[i], ',', '\n');
      SplitJoin(cells[i], ',');
    }
    SplitJoin(lines, '\n');
  }

  /** No quoting: a value holding a newline renders like two rows, so the
      text alone cannot tell the two tables apart. */
  lemma NoEscaping()
    ensures var call := (row: string, accessor: string) => row;
            var cols := [Column("a", "a")];
            Table(call, cols, ["x\ny"]) == Table(call, cols, ["x", "y"]) == "a\nx\ny"
  {
    var call := (row: string, accessor: string) => row;
    var cols := [Column("a", "a")];
    HeaderOnly(call, cols);
    assert Headers(cols) == ["a"];
    AppendRow(call, cols, [], "x\ny");
    assert RowLine(call, cols, "x\ny") == "x\ny";
    AppendRow(call, cols, [], "x");
    AppendRow(call, cols, ["x"], "y");
    assert RowLine(call, cols, "x") == "x";
    assert RowLine(call, cols, "y") == "y";
    assert [] + ["x\ny"] == ["x\ny"];
    assert [] + ["x"] == ["x"];
    assert ["x"] + ["y"] == ["x", "y"];
  }

  // ---------------------------------------------------------------------
  // The source's own examples, run through the builder.
  // ---------------------------------------------------------------------

  /** A builder with nothing registered renders the empty string. */
  method NoInputExample(call: (string, string) -> string) returns (r: string)
    ensures r == ""
  {
    var b := new Builder<string>();
    r := b.Run(call);
  }

  /** Two chained columns and no rows render as their headers. */
  method ColumnNamesExample(call: (string, string) -> string) returns (r: string)
    ensures r == "foo,bar"
  {
    var b := new Builder<string>();
    var h := b.AddColumn("foo", "foo");
    h := h.AddColumn("bar", "bar");
    r := h.Run(call);
    assert Headers(b.cols) == ["foo", "bar"];
    HeaderOnly(call, b.cols);
  }

  /** The record type of the row example. */
  datatype Object = Object(foo: string, bar: string)

  /** The accessor of the row example: the field named by the column. */
  function Field(obj: Object, accessor: string): string
  {
    if accessor == "foo" then obj.foo else if accessor == "bar" then obj.bar else ""
  }

  /** The example's columns read the two fields in order. */
  lemma ObjectValues(obj: Object)
    ensures Values(Field, obj, [Column("foo", "foo"), Column("bar", "bar")]) == [obj.foo, obj.bar]
  {
    var cols := [Column("foo", "foo"), Column("bar", "bar")];
    assert "bar"[0] != "foo"[0];
    assert Field(obj, "foo") == obj.foo;
    assert Field(obj, "bar") == obj.bar;
    assert Values(Field, obj, cols)[0] == obj.foo;
    assert Values(Field, obj, cols)[1] == obj.bar;
  }

  /** The text of the row example. */
  lemma RowObjectsTable()
    ensures Table(Field, [Column("foo", "foo"), Column("bar", "bar")],
                  [Object("xyz", "abc"), Object("123", "456")]) == "foo,bar\nxyz,abc\n123,456"
  {
    var cols, o1, o2 := [Column("foo", "foo"), Column("bar", "bar")], Object("xyz", "abc"), Object("123", "456");
    assert Headers(cols) == ["foo", "bar"];
    ObjectValues(o1);
    ObjectValues(o2);
    assert Join(["foo", "bar"], ',') == "foo,bar";
    assert Join(["xyz", "abc"], ',') == "xyz,abc";
    assert Join(["123", "456"], ',') == "123,456";
    HeaderOnly(Field, cols);
    AppendRow(Field, cols, [], o1);
    assert [] + [o1] == [o1];
    AppendRow(Field, cols, [o1], o2);
    assert [o1] + [o2] == [o1, o2];
  }

  /** Two columns and two rows render as the header line and one line per
      row, in order. */
  method RowObjectsExample() returns (r: string)
    ensures r == "foo,bar\nxyz,abc\n123,456"
  {
    var b := new Builder<Object>();
    var h := b.AddColumn("foo", "foo");
    h := h.AddColumn("bar", "bar");
    h := h.AddRow(Object("xyz", "abc"));
    h := h.AddRow(Object("123", "456"));
    r := h.Run(Field);
    assert b.cols == [Column("foo", "foo"), Column("bar", "bar")];
    assert b.rows == [Object("xyz", "abc"), Object("123", "456")];
    RowObjectsTable();
  }
}

/** The CREATE TABLE statement (createSQLTable, main.go:26-49). */
module Schema {
  import opened Wrappers
  import opened Text
  import opened Dbf
  import opened ColumnType
  import opened Output

  /** A column as the statement declares it: the identifier and the type text. */
  datatype Column = Column(name: string, sqlType: string)

  /** The column a field is declared as: its name, verbatim, and its SQL type. */
  function ColumnOf(fd: FieldDescriptor): Column {
    Column(fd.name, SqlType(fd))
  }

  /** One column definition: the name between backticks, a space, then the type. */
  function ColumnLine(c: Column): string {
    "\t`" + c.name + "` " + c.sqlType
  }

  /** The columns of the fields, in declared field order. */
  function Columns(fields: seq<FieldDescriptor>): (cols: seq<Column>)
    ensures |cols| == |fields|
  {
    Map(ColumnOf, fields)
  }

  /** The column definitions for the fields, in declared field order. */
  function ColumnLines(fields: seq<FieldDescriptor>): (lines: seq<string>)
    ensures |lines| == |fields|
  {
    Map(ColumnLine, Columns(fields))
  }

  function CreateTableOpen(tableName: string): string {
    "CREATE TABLE `" + tableName + "` (\n"
  }

  const CreateTableClose: string := "\n);\n\n"

  /** The whole statement: the opening line, the column definitions in declared field order
      separated by ",\n", and the closing line. */
  function CreateTableText(tableName: string, fields: seq<FieldDescriptor>): string {
    CreateTableOpen(tableName) + Join(",\n", ColumnLines(fields)) + CreateTableClose
  }

  /** Prints the CREATE TABLE statement for `fields` to `out`, one field at a time. */
  method CreateSQLTable(out: Writer, fields: seq<FieldDescriptor>, tableName: string)
    modifies out
    ensures out.text == old(out.text) + CreateTableText(tableName, fields)
  {
    ghost var lines := ColumnLines(fields);
    out.Write(CreateTableOpen(tableName));
    ghost var start := out.text;
    for i := 0 to |fields|
      invariant out.text == start + Join(",\n", lines[..i])
    {
      var fd := fields[i];
      var fieldType := SqlType(fd);
      ghost var done := Join(",\n", lines[..i]);
      ghost var mid := out.text;
      if i > 0 {
        out.Write(",\n");
      }
      ghost var sep := if i > 0 then ",\n" else "";
      assert out.text == mid + sep;
      out.Write("\t`" + fd.name + "` " + fieldType);
      assert "\t`" + fd.name + "` " + fieldType == ColumnLine(ColumnOf(fd)) == lines[i];
      assert out.text == mid + sep + lines[i];
      TakeSnoc(lines, i);
      JoinSnoc(",\n", lines[..i], lines[i]);
      assert i == 0 ==> lines[..i] == [];
      assert Join(",\n", lines[..i + 1]) == done + sep + lines[i];
      RegroupAfterFirst(start, done, sep, lines[i]);
    }
    assert lines[..|fields|] == lines;
    out.Write(CreateTableClose);
  }

  /** Reads one or more column definitions separated by ",\n": a tab, the name between
      backticks, a space, and the type, which runs to the end of its line. */
  function ReadColumnList(s: string): Option<seq<Column>>
    decreases |s|
  {
    if |s| < 2 || s[..2] != "\t`" then None
    else
      var (name, afterName) := ReadUntil(s[2..], '`');
      if |afterName| < 2 || afterName[..2] != "` " then None
      else
        var (line, afterLine) := ReadUntil(afterName[2..], '\n');
        if afterLine == [] then Some([Column(name, line)])
        else if line != [] && line[|line| - 1] == ',' then
          match ReadColumnList(afterLine[1..])
          case None => None
          case Some(cols) => Some([Column(name, line[..|line| - 1])] + cols)
        else None
  }

  /** Reads a CREATE TABLE statement for `tableName` back into its columns. */
  function ReadCreateTable(tableName: string, text: string): Option<seq<Column>> {
    var open := CreateTableOpen(tableName);
    if |text| < |open| + |CreateTableClose| then None
    else if text[..|open|] != open || text[|text| - |CreateTableClose|..] != CreateTableClose then None
    else
      var body := text[|open|..|text| - |CreateTableClose|];
      if body == [] then Some([]) else ReadColumnList(body)
  }

  /** The field names contain no backtick, so each is one quoted identifier. */
  predicate PlainNames(fields: seq<FieldDescriptor>) {
    forall i :: 0 <= i < |fields| ==> '`' !in fields[i].name
  }

  /** A column that a reader can delimit: no backtick in the name, no line break in the type. */
  predicate Delimited(c: Column) {
    '`' !in c.name && '\n' !in c.sqlType
  }

  /** A column definition on its own reads as that one column. */
  lemma ReadColumnAlone(c: Column)
    requires Delimited(c)
    ensures ReadColumnList(ColumnLine(c)) == Some([c])
  {
    var s := ColumnLine(c);
    assert s[..2] == "\t`";
    assert s[2..] == c.name + ("` " + c.sqlType);
    ReadUntilSplit(c.name, "` " + c.sqlType, '`');
    assert ("` " + c.sqlType)[..2] == "` ";
    assert ("` " + c.sqlType)[2..] == c.sqlType + [];
    ReadUntilSplit(c.sqlType, [], '\n');
  }

  /** A column definition followed by ",\n" reads as that column, then the reading goes on
      after the separator. */
  lemma ReadColumnThen(c: Column, rest: string)
    requires Delimited(c)
    ensures ReadColumnList(ColumnLine(c) + ",\n" + rest) ==
      match ReadColumnList(rest)
      case None => None
      case Some(cols) => Some([c] + cols)
  {
    var s := ColumnLine(c) + ",\n" + rest;
    var t := c.sqlType;
    assert s[..2] == "\t`";
    assert s[2..] == c.name + ("` " + t + ",\n" + rest);
    ReadUntilSplit(c.name, "` " + t + ",\n" + rest, '`');
    assert ("` " + t + ",\n" + rest)[..2] == "` ";
    assert ("` " + t + ",\n" + rest)[2..] == (t + ",") + ("\n" + rest);
    ReadUntilSplit(t + ",", "\n" + rest, '\n');
    assert (t + ",")[..|t + ","| - 1] == t;
    assert ("\n" + rest)[1..] == rest;
  }

  lemma {:induction false} ReadColumnListJoin(cols: seq<Column>)
    requires |cols| > 0
    requires forall i :: 0 <= i < |cols| ==> Delimited(cols[i])
    ensures ReadColumnList(Join(",\n", Map(ColumnLine, cols))) == Some(cols)
    decreases |cols|
  {
    var lines := Map(ColumnLine, cols);
    if |cols| == 1 {
      ReadColumnAlone(cols[0]);
      assert [cols[0]] == cols;
    } else {
      JoinCons(",\n", lines);
      MapTail(ColumnLine, cols);
      ReadColumnListJoin(cols[1..]);
      ReadColumnThen(cols[0], Join(",\n", lines[1..]));
      assert [cols[0]] + cols[1..] == cols;
    }
  }

  /** Reading the emitted statement back gives one column per field, in declared field order,
      each with the field's name and its SQL type; with no fields, no columns. */
  lemma CreateTableRoundTrip(tableName: string, fields: seq<FieldDescriptor>)
    requires PlainNames(fields)
    ensures ReadCreateTable(tableName, CreateTableText(tableName, fields)) == Some(Columns(fields))
  {
    var open := CreateTableOpen(tableName);
    var cols := Columns(fields);
    var body := Join(",\n", ColumnLines(fields));
    var text := CreateTableText(tableName, fields);
    assert text[..|open|] == open;
    assert text[|text| - |CreateTableClose|..] == CreateTableClose;
    assert text[|open|..|text| - |CreateTableClose|] == body;
    if fields != [] {
      forall i | 0 <= i < |cols|
        ensures Delimited(cols[i])
      {
        assert cols[i] == ColumnOf(fields[i]);
      }
      ReadColumnListJoin(cols);
      assert body[0] == '\t' by {
        if |fields| > 1 { JoinCons(",\n", ColumnLines(fields)); }
      }
    }
  }

  /** With no fields the statement has an empty column list. */
  lemma CreateTableNoFields(tableName: string)
    ensures CreateTableText(tableName, []) == "CREATE TABLE `" + tableName + "` (\n\n);\n\n"
  {
  }
}

/** The script the converter prints: the header comment (showInformation, main.go:18-24), then
    the CREATE TABLE and INSERT statements, in that order (main.go:95-97). */
module Converter {
  import opened Wrappers
  import opened Text
  import opened Decimal
  import opened Dbf
  import opened Output
  import Schema
  import Insert
  import Escape
  import ColumnType

  const GeneratedBy: string := "-- Generated by dbf2sql on "
  const TableLine: string := "\n-- table: "
  const CountLine: string := "\n-- "
  const FieldsLine: string := " fields\n-- "
  const RecordsLine: string := " records\n\n"

  /** The header comment; `timestamp` is the generation time already formatted, which the
      model takes as given. */
  function HeaderText(timestamp: string, tableName: string, fieldCount: nat, recordCount: nat): string {
    GeneratedBy + timestamp + TableLine + tableName + CountLine + NatToString(fieldCount)
      + FieldsLine + NatToString(recordCount) + RecordsLine
  }

  /** Prints the header comment for `table` to `out`. */
  method ShowInformation(out: Writer, table: DbfTable, tableName: string, timestamp: string)
    modifies out
    ensures out.text == old(out.text) + HeaderText(timestamp, tableName, |table.fields|, table.NumberOfRecords())
  {
    out.Write(HeaderText(timestamp, tableName, |table.fields|, table.NumberOfRecords()));
  }

  /** What a header holds: the generation time, the table name and the two counts. */
  datatype Header = Header(timestamp: string, tableName: string, fieldCount: nat, recordCount: nat)

  /** Consumes `lit` at the front of t. */
  function Expect(lit: string, t: string): Option<string> {
    if |t| >= |lit| && t[..|lit|] == lit then Some(t[|lit|..]) else None
  }

  /** Reads a decimal numeral ending at the next space. */
  function ReadCount(t: string): Option<(nat, string)> {
    var (digits, rest) := ReadUntil(t, ' ');
    if digits != [] && AllDigits(digits) then Some((DigitsValue(digits), rest)) else None
  }

  /** Reads the two count lines of a header, from the field count to the end. */
  function ReadCounts(t: string): Option<(nat, nat)> {
    match ReadCount(t)
    case None => None
    case Some((fieldCount, t1)) =>
      match Expect(FieldsLine, t1)
      case None => None
      case Some(t2) =>
        match ReadCount(t2)
        case None => None
        case Some((recordCount, t3)) =>
          if t3 == RecordsLine then Some((fieldCount, recordCount)) else None
  }

  /** Reads a header comment back. */
  function ReadHeader(text: string): Option<Header> {
    match Expect(GeneratedBy, text)
    case None => None
    case Some(t1) =>
      var (timestamp, t2) := ReadUntil(t1, '\n');
      match Expect(TableLine, t2)
      case None => None
      case Some(t3) =>
        var (tableName, t4) := ReadUntil(t3, '\n');
        match Expect(CountLine, t4)
        case None => None
        case Some(t5) =>
          match ReadCounts(t5)
          case None => None
          case Some((fieldCount, recordCount)) => Some(Header(timestamp, tableName, fieldCount, recordCount))
  }

  lemma ExpectPrefix(lit: string, rest: string)
    ensures Expect(lit, lit + rest) == Some(rest)
  {
    assert (lit + rest)[..|lit|] == lit;
  }

  lemma ReadCountNumeral(n: nat, rest: string)
    requires rest != [] && rest[0] == ' '
    ensures ReadCount(NatToString(n) + rest) == Some((n, rest))
  {
    var s := NatToString(n);
    assert ' ' !in s;
    ReadUntilSplit(s, rest, ' ');
    NatToStringRoundTrip(n);
  }

  lemma ReadLineThen(line: string, lit: string, rest: string)
    requires '\n' !in line && lit != [] && lit[0] == '\n'
    ensures ReadUntil(line + lit + rest, '\n') == (line, lit + rest)
  {
    ReadUntilSplit(line, lit + rest, '\n');
    assert line + lit + rest == line + (lit + rest);
  }

  /** ReadCounts succeeds once each of its three steps does. */
  lemma ReadCountsSteps(t: string, fieldCount: nat, t1: string, t2: string, recordCount: nat)
    requires ReadCount(t) == Some((fieldCount, t1))
    requires Expect(FieldsLine, t1) == Some(t2)
    requires ReadCount(t2) == Some((recordCount, RecordsLine))
    ensures ReadCounts(t) == Some((fieldCount, recordCount))
  {
  }

  lemma ReadCountsNumerals(fieldCount: nat, recordCount: nat)
    ensures ReadCounts(NatToString(fieldCount) + FieldsLine + NatToString(recordCount) + RecordsLine)
      == Some((fieldCount, recordCount))
  {
    var t2 := NatToString(recordCount) + RecordsLine;
    var t1 := FieldsLine + NatToString(recordCount) + RecordsLine;
    var t := NatToString(fieldCount) + t1;
    RegroupAfterFirst(NatToString(fieldCount), FieldsLine, NatToString(recordCount), RecordsLine);
    assert t1 == FieldsLine + t2;
    ReadCountNumeral(fieldCount, t1);
    ExpectPrefix(FieldsLine, t2);
    ReadCountNumeral(recordCount, RecordsLine);
    ReadCountsSteps(t, fieldCount, t1, t2, recordCount);
  }

  /** Reading the header back gives the time, the table name and both counts, provided the
      time and the name are single lines. */
  lemma HeaderRoundTrip(timestamp: string, tableName: string, fieldCount: nat, recordCount: nat)
    requires '\n' !in timestamp && '\n' !in tableName
    ensures ReadHeader(HeaderText(timestamp, tableName, fieldCount, recordCount))
      == Some(Header(timestamp, tableName, fieldCount, recordCount))
  {
    var t5 := NatToString(fieldCount) + FieldsLine + NatToString(recordCount) + RecordsLine;
    var t3 := tableName + CountLine + t5;
    var t1 := timestamp + TableLine + t3;
    assert HeaderText(timestamp, tableName, fieldCount, recordCount) == GeneratedBy + t1;
    ExpectPrefix(GeneratedBy, t1);
    ReadLineThen(timestamp, TableLine, t3);
    ExpectPrefix(TableLine, t3);
    ReadLineThen(tableName, CountLine, t5);
    ExpectPrefix(CountLine, t5);
    ReadCountsNumerals(fieldCount, recordCount);
  }

  /** The whole script printed for `table`. */
  function ScriptText(timestamp: string, tableName: string, table: DbfTable): string {
    HeaderText(timestamp, tableName, |table.fields|, table.NumberOfRecords())
      + Schema.CreateTableText(tableName, table.fields)
      + Insert.InsertText(tableName, table.records)
  }

  /** The emission part of the program: header, schema, rows, all to the same output. */
  method Convert(out: Writer, table: DbfTable, tableName: string, timestamp: string)
    requires table.Valid()
    modifies out
    ensures out.text == old(out.text) + ScriptText(timestamp, tableName, table)
  {
    ghost var before := out.text;
    ShowInformation(out, table, tableName, timestamp);
    ghost var header := out.text[|before|..];
    Schema.CreateSQLTable(out, table.fields, tableName);
    ghost var schema := out.text[|before| + |header|..];
    Insert.FillSQLTable(out, table, tableName);
    ghost var rows := out.text[|before| + |header| + |schema|..];
    RegroupAfterFirst(before, header, schema, rows);
  }

  /** The schema of a table with a character field and a numeric field. */
  lemma CustomersSchema()
    ensures Schema.CreateTableText("CUSTOMERS",
        [FieldDescriptor("NAME", Character, 30, 0), FieldDescriptor("BALANCE", Numeric, 10, 2)])
      == "CREATE TABLE `CUSTOMERS` (\n" + "\t`NAME` CHAR(30)" + ",\n" + "\t`BALANCE` DECIMAL(10,2)" + "\n);\n\n"
  {
    var name := FieldDescriptor("NAME", Character, 30, 0);
    var balance := FieldDescriptor("BALANCE", Numeric, 10, 2);
    var lines := Schema.ColumnLines([name, balance]);
    assert lines == ["\t`NAME` CHAR(30)", "\t`BALANCE` DECIMAL(10,2)"] by {
      ColumnType.SqlTypeSamples();
      assert Schema.ColumnLine(Schema.ColumnOf(name)) == "\t`NAME` CHAR(30)";
      assert Schema.ColumnLine(Schema.ColumnOf(balance)) == "\t`BALANCE` DECIMAL(10,2)";
    }
    assert Join(",\n", lines) == "\t`NAME` CHAR(30)" + ",\n" + "\t`BALANCE` DECIMAL(10,2)";
  }

  /** A cell with one quote becomes a literal with that quote doubled. */
  lemma OBrienLiteral()
    ensures Escape.Literal("O'Brien") == "'O''Brien'"
  {
    assert Escape.Escape("O'Brien") == "O''Brien";
  }

  lemma OBrienTuple()
    ensures Insert.TupleText(["O'Brien", "100.50"]) == "\t('O''Brien','100.50')"
  {
    OBrienLiteral();
    assert Escape.Literal("100.50") == "'100.50'";
    assert Insert.Literals(["O'Brien", "100.50"]) == ["'O''Brien'", "'100.50'"];
  }

  lemma SmithTuple()
    ensures Insert.TupleText(["Smith", "0"]) == "\t('Smith','0')"
  {
    assert Escape.Literal("Smith") == "'Smith'";
    assert Escape.Literal("0") == "'0'";
    assert Insert.Literals(["Smith", "0"]) == ["'Smith'", "'0'"];
  }

  /** The rows of the same table, one of whose cells holds a quote. */
  lemma CustomersRows()
    ensures Insert.InsertText("CUSTOMERS", [["O'Brien", "100.50"], ["Smith", "0"]])
      == "INSERT INTO `CUSTOMERS` VALUES\n" + "\t('O''Brien','100.50')" + ",\n" + "\t('Smith','0')" + ";\n\n"
  {
    OBrienTuple();
    SmithTuple();
    assert Insert.Tuples([["O'Brien", "100.50"], ["Smith", "0"]]) == ["\t('O''Brien','100.50')", "\t('Smith','0')"];
  }
}

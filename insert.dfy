/** The INSERT statement holding every record (fillSQLTable, main.go:51-67). */
module Insert {
  import opened Wrappers
  import opened Text
  import opened Escape
  import opened Dbf
  import opened Output

  /** The literals of one record, in field order; every cell is written as a quoted string,
      whatever the field's declared type. */
  function Literals(row: seq<string>): (lits: seq<string>)
    ensures |lits| == |row|
  {
    Map(Literal, row)
  }

  /** One record as a parenthesised tuple of literals separated by ",". */
  function TupleText(row: seq<string>): string {
    "\t(" + Join(",", Literals(row)) + ")"
  }

  function Tuples(records: seq<seq<string>>): (tuples: seq<string>)
    ensures |tuples| == |records|
  {
    Map(TupleText, records)
  }

  function InsertOpen(tableName: string): string {
    "INSERT INTO `" + tableName + "` VALUES\n"
  }

  const InsertClose: string := ";\n\n"

  /** The whole statement: the opening line, one tuple per record separated by ",\n", and the
      closing ";". */
  function InsertText(tableName: string, records: seq<seq<string>>): string {
    InsertOpen(tableName) + Join(",\n", Tuples(records)) + InsertClose
  }

  /** Regroups printed text, followed by a separator and a tuple's three pieces, as the printed
      text followed by the separator and the whole tuple. */
  lemma RegroupTuple(a: string, b: string, c: string, d: string, e: string, f: string)
    ensures a + b + c + d + e + f == a + (b + c + (d + e + f))
  {
  }

  /** Prints the INSERT statement for every record of `table` to `out`, cell by cell. */
  method FillSQLTable(out: Writer, table: DbfTable, tableName: string)
    requires table.Valid()
    modifies out
    ensures out.text == old(out.text) + InsertText(tableName, table.records)
  {
    ghost var tuples := Tuples(table.records);
    out.Write(InsertOpen(tableName));
    ghost var start := out.text;
    for i := 0 to table.NumberOfRecords()
      invariant out.text == start + Join(",\n", tuples[..i])
    {
      ghost var done := Join(",\n", tuples[..i]);
      if i > 0 {
        out.Write(",\n");
      }
      ghost var sep := if i > 0 then ",\n" else "";
      out.Write("\t(");
      ghost var lits := Literals(table.records[i]);
      ghost var open := out.text;
      for j := 0 to |table.fields|
        invariant out.text == open + Join(",", lits[..j])
      {
        ghost var written := Join(",", lits[..j]);
        if j > 0 {
          out.Write(",");
        }
        ghost var comma := if j > 0 then "," else "";
        out.Write("'" + Escape.Escape(table.FieldValue(i, j)) + "'");
        assert "'" + Escape.Escape(table.FieldValue(i, j)) + "'" == Literal(table.records[i][j]) == lits[j];
        TakeSnoc(lits, j);
        JoinSnoc(",", lits[..j], lits[j]);
        assert j == 0 ==> lits[..j] == [];
        RegroupAfterFirst(open, written, comma, lits[j]);
      }
      assert lits[..|table.fields|] == lits;
      out.Write(")");
      assert tuples[i] == TupleText(table.records[i]) == "\t(" + Join(",", lits) + ")";
      TakeSnoc(tuples, i);
      JoinSnoc(",\n", tuples[..i], tuples[i]);
      assert i == 0 ==> tuples[..i] == [];
      RegroupTuple(start, done, sep, "\t(", Join(",", lits), ")");
    }
    assert tuples[..table.NumberOfRecords()] == tuples;
    out.Write(InsertClose);
  }

  /** Reads one or more literals separated by "," up to the closing ")"; gives the texts they
      denote and what follows the ")". */
  function ReadValueList(t: string): (r: Option<(seq<string>, string)>)
    ensures r.Some? ==> |r.value.1| < |t|
    decreases |t|
  {
    match ReadLiteral(t)
    case None => None
    case Some((v, rest)) =>
      if rest != [] && rest[0] == ')' then Some(([v], rest[1..]))
      else if rest != [] && rest[0] == ',' then
        match ReadValueList(rest[1..])
        case None => None
        case Some((vs, after)) => Some(([v] + vs, after))
      else None
  }

  /** Reads one tuple "\t(" ... ")" at the front of t. */
  function ReadTuple(t: string): (r: Option<(seq<string>, string)>)
    ensures r.Some? ==> |r.value.1| < |t|
  {
    if |t| < 2 || t[..2] != "\t(" then None
    else if |t| >= 3 && t[2] == ')' then Some(([], t[3..]))
    else ReadValueList(t[2..])
  }

  /** Reads one or more tuples separated by ",\n", to the end of t. */
  function ReadTupleList(t: string): Option<seq<seq<string>>>
    decreases |t|
  {
    match ReadTuple(t)
    case None => None
    case Some((row, rest)) =>
      if rest == [] then Some([row])
      else if |rest| >= 2 && rest[..2] == ",\n" then
        match ReadTupleList(rest[2..])
        case None => None
        case Some(rows) => Some([row] + rows)
      else None
  }

  /** Reads an INSERT statement for `tableName` back into the cell texts of its records. */
  function ReadInsert(tableName: string, text: string): Option<seq<seq<string>>> {
    var open := InsertOpen(tableName);
    if |text| < |open| + |InsertClose| then None
    else if text[..|open|] != open || text[|text| - |InsertClose|..] != InsertClose then None
    else
      var body := text[|open|..|text| - |InsertClose|];
      if body == [] then Some([]) else ReadTupleList(body)
  }

  lemma {:induction false} ReadValueListJoin(row: seq<string>, rest: string)
    requires |row| > 0
    ensures ReadValueList(Join(",", Literals(row)) + ")" + rest) == Some((row, rest))
    decreases |row|
  {
    var lits := Literals(row);
    if |row| == 1 {
      assert Join(",", lits) + ")" + rest == Literal(row[0]) + (")" + rest);
      ReadLiteralOfLiteral(row[0], ")" + rest);
      assert (")" + rest)[1..] == rest;
      assert [row[0]] == row;
    } else {
      JoinCons(",", lits);
      MapTail(Literal, row);
      var tail := Join(",", lits[1..]) + ")" + rest;
      assert Join(",", lits) + ")" + rest == Literal(row[0]) + ("," + tail);
      ReadLiteralOfLiteral(row[0], "," + tail);
      assert ("," + tail)[1..] == tail;
      ReadValueListJoin(row[1..], rest);
      assert [row[0]] + row[1..] == row;
    }
  }

  /** A tuple written for a record, followed by anything, reads as that record. */
  lemma ReadTupleText(row: seq<string>, rest: string)
    ensures ReadTuple(TupleText(row) + rest) == Some((row, rest))
  {
    var t := TupleText(row) + rest;
    assert t[..2] == "\t(";
    if row == [] {
      assert t == "\t()" + rest;
    } else {
      assert Join(",", Literals(row))[0] == Quote by {
        if |row| > 1 { JoinCons(",", Literals(row)); }
        assert Literal(row[0])[0] == Quote;
      }
      assert t[2] == Quote;
      assert t[2..] == Join(",", Literals(row)) + ")" + rest;
      ReadValueListJoin(row, rest);
    }
  }

  lemma {:induction false} ReadTupleListJoin(records: seq<seq<string>>)
    requires |records| > 0
    ensures ReadTupleList(Join(",\n", Tuples(records))) == Some(records)
    decreases |records|
  {
    var tuples := Tuples(records);
    if |records| == 1 {
      ReadTupleText(records[0], []);
      assert TupleText(records[0]) + [] == Join(",\n", tuples);
      assert [records[0]] == records;
    } else {
      JoinCons(",\n", tuples);
      MapTail(TupleText, records);
      var tail := Join(",\n", tuples[1..]);
      ReadTupleText(records[0], ",\n" + tail);
      assert Join(",\n", tuples) == TupleText(records[0]) + (",\n" + tail);
      assert (",\n" + tail)[..2] == ",\n" && (",\n" + tail)[2..] == tail;
      ReadTupleListJoin(records[1..]);
      assert [records[0]] + records[1..] == records;
    }
  }

  /** Reading the emitted statement back gives every record, in order, with every cell's
      text; with no records, the statement has no tuples. */
  lemma InsertRoundTrip(tableName: string, records: seq<seq<string>>)
    ensures ReadInsert(tableName, InsertText(tableName, records)) == Some(records)
  {
    var open := InsertOpen(tableName);
    var body := Join(",\n", Tuples(records));
    var text := InsertText(tableName, records);
    assert text[..|open|] == open;
    assert text[|text| - |InsertClose|..] == InsertClose;
    assert text[|open|..|text| - |InsertClose|] == body;
    if records != [] {
      ReadTupleListJoin(records);
      assert body[0] == '\t' by {
        if |records| > 1 { JoinCons(",\n", Tuples(records)); }
      }
    }
  }

  /** For a table, the statement holds one tuple per record and, in tuple i, one literal per
      field, literal j denoting the cell (i, j). */
  lemma InsertMatchesTable(tableName: string, table: DbfTable)
    requires table.Valid()
    ensures var rows := ReadInsert(tableName, InsertText(tableName, table.records));
      && rows.Some?
      && |rows.value| == table.NumberOfRecords()
      && forall i :: 0 <= i < |rows.value| ==>
           |rows.value[i]| == |table.fields| &&
           forall j :: 0 <= j < |table.fields| ==> rows.value[i][j] == table.FieldValue(i, j)
  {
    InsertRoundTrip(tableName, table.records);
  }

  /** With no records the statement is its opening line and the closing ";". */
  lemma InsertNoRecords(tableName: string)
    ensures InsertText(tableName, []) == "INSERT INTO `" + tableName + "` VALUES\n;\n\n"
  {
  }
}

# dbf2sql emitter model

dbf2sql converts a dBase table (a DBF file) into a SQL script. The script has a comment header, a
`CREATE TABLE` statement with one column per field, and one `INSERT` statement holding every
record as a tuple of quoted string literals. This project models the text the converter prints.
The loaded table is given as data: the field descriptors in declared order, and the text of
every cell indexed by record and then field. The output stream is a `Writer` object. Its only
state is the text written so far, and writing appends to it.

Modules:

- `Dbf`: the table as the DBF library presents it. A `FieldDescriptor` has a name, a type code,
  a length and a decimal count. The last three are single bytes, as in the DBF field
  descriptor. A `DbfTable` has descriptors and records, and `Valid()` says that every record has
  one cell per field.
- `Decimal`: base-ten numerals, which is how Go's `%v` prints the length, the decimal count and
  the two counts.
- `ColumnType`: the five-way switch from field type to SQL column type.
- `Escape`: quote doubling, the single-quoted literal, and a reader for SQL string literals.
- `Schema`: `createSQLTable` as a method with a loop, its specification `CreateTableText`, and a
  reader for the statement.
- `Insert`: `fillSQLTable` as a method with two nested loops, its specification `InsertText`,
  and a reader for the statement.
- `Converter`: the header comment, `ShowInformation`, and `Convert`. `Convert` prints the
  header, the schema and the rows, in that order.
- `Text`, `Wrappers`, `Output`: joining and splitting strings, `Option`, and the writer.

Each printing method is proved against a pure function of its inputs. Each of those functions
is paired with a reader, and a lemma shows that reading the printed text gives back what was
printed: the columns, every record with every cell, or the header's counts.

Behaviour of the code at the edges, as the model states it:

- The type switch has no default case. A field whose type code is none of the five gets an
  empty type, which leaves its column line as `` `name` `` and a space (`ColumnType.SqlType`).
- The code does not check that a field length is positive, so the model allows any byte value.
- With no records the statement is `` INSERT INTO `t` VALUES `` followed directly by `;`.
- With no fields each tuple is `()`. The column list is then empty, and the statement still
  has its blank line between `(` and `);`.

## Model

| member | source | states |
|---|---|---|
| `Decimal.NatToString` | main.go:32-36 | the numeral printed for a length or decimal count is a non-empty run of digits, with a leading `0` exactly when the value is zero |
| `Decimal.NatToStringRoundTrip` | main.go:32-36 | reading the printed numeral back in base ten gives the number |
| `Decimal.NatToStringInjective` | main.go:32-36 | two values print the same numeral if and only if they are equal |
| `Decimal.DigitsRoundTrip` | main.go:32-36 | every digit string without a superfluous leading zero is the printed numeral of its value |
| `ColumnType.SqlType` | main.go:29-41 | the column type is empty if and only if the type code is none of Numeric, Float, Character, Date, Logical; it never contains a line break |
| `ColumnType.SqlTypeInjective` | main.go:29-41 | a known column type determines the field type; for Numeric, Float and Character it also determines the length, and for Numeric and Float the decimal count |
| `ColumnType.SqlTypeSamples` | main.go:31-40 | `DECIMAL(10,2)`, `FLOAT(8,3)`, `CHAR(30)`, `DATE`, `BOOLEAN`, and an empty type for an unknown code |
| `Escape.EscapeDoublesQuotes` | main.go:62 | text with k single quotes escapes to text with 2k single quotes |
| `Escape.EscapeKeepsNonQuotes` | main.go:62 | escaping keeps every other character, in order |
| `Escape.UnescapeEscape` | main.go:62 | collapsing each doubled quote in the escaped text gives back the cell text |
| `Escape.EscapePaired` | main.go:62 | in escaped text, quotes occur only in adjacent pairs |
| `Escape.PairedIsEscaped` | main.go:62 | conversely, every text whose quotes are paired is the escape of its unescaping |
| `Escape.ReadLiteral` | main.go:62 | whatever a SQL string-literal reader accepts is exactly the quoted, escaped form of the text it returns, followed by the rest |
| `Escape.ReadLiteralOfLiteral` | main.go:62 | the literal printed for a cell, followed by text that does not start with a quote (the printer always writes `,` or `)` next), is one complete SQL string literal: the reader stops at its closing quote and returns the cell text |
| `Schema.CreateSQLTable` | main.go:26-49 | the printer appends exactly `CreateTableText`: the opening line with the table name in backticks, one column line per field in declared order separated by `,\n`, then `\n);\n\n` |
| `Schema.ReadColumnListJoin` | main.go:43-46 | a non-empty list of column lines joined by `,\n` reads back as exactly those columns, in order, for columns whose names have no backtick and whose types have no line break |
| `Schema.CreateTableRoundTrip` | main.go:27-48 | reading the statement back gives one column per field, in declared order, with the field's verbatim name and its SQL type; with no fields it gives no columns |
| `Schema.CreateTableNoFields` | main.go:27-48 | with no fields the statement is ``CREATE TABLE `t` (\n\n);\n\n`` |
| `Insert.FillSQLTable` | main.go:51-67 | the printer appends exactly `InsertText`: the opening line, one tuple per record separated by `,\n`, and `;\n\n`; each tuple is `\t(` + the quoted, escaped cells of the record joined by `,` + `)` |
| `Insert.ReadTupleText` | main.go:57-64 | a printed tuple, followed by anything, reads back as exactly the record's cell texts, whatever the field types |
| `Insert.InsertRoundTrip` | main.go:52-66 | reading the statement back gives every record, in order, with every cell's text; with zero records it gives no tuples |
| `Insert.InsertMatchesTable` | main.go:53-64 | for a table, the statement holds one tuple per record; tuple i holds one literal per field, and literal j denotes the cell (i, j) |
| `Insert.InsertNoRecords` | main.go:52-66 | with no records the statement is ``INSERT INTO `t` VALUES\n;\n\n`` |
| `Converter.ShowInformation` | main.go:18-24 | the header appends the generation line, the table name line, and the field and record counts in decimal |
| `Converter.HeaderRoundTrip` | main.go:19-23 | reading the header back gives the timestamp, the table name, the field count and the record count |
| `Converter.Convert` | main.go:95-97 | the script is the header, then the CREATE TABLE statement, then the INSERT statement, all appended to one output |
| `Converter.CustomersSchema` | main.go:26-49 | a table with `NAME` (Character, 30) and `BALANCE` (Numeric, 10, 2) gets the columns `` `NAME` CHAR(30) `` and `` `BALANCE` DECIMAL(10,2) `` |
| `Converter.CustomersRows` | main.go:51-67 | the records `("O'Brien", "100.50")` and `("Smith", "0")` print as `('O''Brien','100.50'),\n\t('Smith','0')` |

## Left out

- Loading and decoding the DBF file is done by a third-party library (`godbf.NewFromFile`,
  `Fields`, `FieldNames`, `FieldValue`, `NumberOfRecords`), along with its load errors. The
  model takes the resulting table as input data.
- Command-line flags, the usage message, and exiting with status 1 (main.go:13-16, 70-84) are
  process plumbing, not emitted text.
- Opening the output file and rebinding standard output to it (main.go:86-93) is file I/O. The
  `Writer` stands for whichever stream was chosen.
- `time.Now().Format(time.RFC822)` reads the clock. The header takes the formatted time as a
  string parameter.
- Write errors are not checked by the source, so nothing is specified about them.
- Go strings are byte strings, and the model's are character strings. The only character the
  converter inspects is the ASCII quote, which is never part of a multi-byte UTF-8 sequence, so
  escaping is the same on either view.
- Schema.CreateTableRoundTrip: stated only for field names without a backtick. The source puts
  names between backticks without escaping them, so a name containing a backtick cannot be
  delimited when the statement is read back. The statement itself is specified for all names
  by `Schema.CreateSQLTable`.
- Converter.HeaderRoundTrip: stated only for a timestamp and a table name without a line break,
  since each fills one comment line. The header text itself is specified for all inputs by
  `Converter.ShowInformation`.

/** The SQL column type chosen for each DBF field (main.go:29-41). */
module ColumnType {
  import opened Dbf
  import opened Decimal
  import Text

  /** The five field types the converter knows. */
  predicate IsKnownType(tag: byte) {
    tag == Numeric || tag == Float || tag == Character || tag == Date || tag == Logical
  }

  /** The field types whose SQL type carries the field length. */
  predicate HasLength(tag: byte) {
    tag == Numeric || tag == Float || tag == Character
  }

  /** The field types whose SQL type also carries the decimal count. */
  predicate HasDecimals(tag: byte) {
    tag == Numeric || tag == Float
  }

  /** The column type written for a field; an unknown type code leaves it empty, since the
      source's switch has no default case and `fieldType` keeps its zero value. */
  function SqlType(fd: FieldDescriptor): (t: string)
    ensures t == [] <==> !IsKnownType(fd.fieldType)
    ensures '\n' !in t
  {
    var len := NatToString(fd.length as nat);
    var dec := NatToString(fd.decimalCount as nat);
    NoNewline(len);
    NoNewline(dec);
    if fd.fieldType == Numeric then "DECIMAL(" + len + "," + dec + ")"
    else if fd.fieldType == Float then "FLOAT(" + len + "," + dec + ")"
    else if fd.fieldType == Character then "CHAR(" + len + ")"
    else if fd.fieldType == Date then "DATE"
    else if fd.fieldType == Logical then "BOOLEAN"
    else ""
  }

  lemma NoNewline(s: string)
    requires AllDigits(s)
    ensures '\n' !in s && ',' !in s && ')' !in s
  {
  }

  /** The first two characters of each known column type; they differ from type to type. */
  function TypeInitials(tag: byte): string {
    if tag == Numeric then "DE"
    else if tag == Float then "FL"
    else if tag == Character then "CH"
    else if tag == Date then "DA"
    else "BO"
  }

  lemma SqlTypeInitials(fd: FieldDescriptor)
    requires IsKnownType(fd.fieldType)
    ensures |SqlType(fd)| >= 2 && SqlType(fd)[..2] == TypeInitials(fd.fieldType)
  {
  }

  /** `head + a + "," + b + ")"` determines a and b when both are numerals. */
  lemma PairArgs(head: string, a: string, b: string, a': string, b': string)
    requires AllDigits(a) && AllDigits(b) && AllDigits(a') && AllDigits(b')
    requires head + a + "," + b + ")" == head + a' + "," + b' + ")"
    ensures a == a' && b == b'
  {
    NoNewline(a);
    NoNewline(a');
    var x := head + a + "," + b + ")";
    var y := head + a' + "," + b' + ")";
    assert x[|head|..] == a + [','] + (b + ")");
    assert y[|head|..] == a' + [','] + (b' + ")");
    Text.SplitAtFirst(a, b + ")", a', b' + ")", ',');
    assert b == (b + ")")[..|b|] == (b' + ")")[..|b'|] == b';
  }

  /** `head + a + ")"` determines a. */
  lemma SingleArg(head: string, a: string, a': string)
    requires head + a + ")" == head + a' + ")"
    ensures a == a'
  {
    var x := head + a + ")";
    assert a == x[|head|..|x| - 1];
    assert a' == x[|head|..|x| - 1];
  }

  /** The column type identifies the field type and, for the types that show them, the field
      length and the decimal count: two fields get the same known column type only when they
      agree on all of these. */
  lemma SqlTypeInjective(a: FieldDescriptor, b: FieldDescriptor)
    requires IsKnownType(a.fieldType)
    requires SqlType(a) == SqlType(b)
    ensures a.fieldType == b.fieldType
    ensures HasLength(a.fieldType) ==> a.length == b.length
    ensures HasDecimals(a.fieldType) ==> a.decimalCount == b.decimalCount
  {
    var t := SqlType(a);
    assert IsKnownType(b.fieldType);
    var la, da := NatToString(a.length as nat), NatToString(a.decimalCount as nat);
    var lb, db := NatToString(b.length as nat), NatToString(b.decimalCount as nat);
    SqlTypeInitials(a);
    SqlTypeInitials(b);
    if a.fieldType == Numeric {
      PairArgs("DECIMAL(", la, da, lb, db);
    } else if a.fieldType == Float {
      PairArgs("FLOAT(", la, da, lb, db);
    } else if a.fieldType == Character {
      assert t == "CHAR(" + la + ")" == "CHAR(" + lb + ")";
      SingleArg("CHAR(", la, lb);
    }
    NatToStringInjective(a.length as nat, b.length as nat);
    NatToStringInjective(a.decimalCount as nat, b.decimalCount as nat);
  }

  /** The mapping on sample descriptors. */
  lemma SqlTypeSamples()
    ensures SqlType(FieldDescriptor("BALANCE", Numeric, 10, 2)) == "DECIMAL(10,2)"
    ensures SqlType(FieldDescriptor("RATE", Float, 8, 3)) == "FLOAT(8,3)"
    ensures SqlType(FieldDescriptor("NAME", Character, 30, 0)) == "CHAR(30)"
    ensures SqlType(FieldDescriptor("BORN", Date, 8, 0)) == "DATE"
    ensures SqlType(FieldDescriptor("ACTIVE", Logical, 1, 0)) == "BOOLEAN"
    ensures SqlType(FieldDescriptor("NOTES", 0x4D, 10, 0)) == ""
  {
    assert NatToString(10) == "10";
    assert NatToString(30) == "30";
  }
}

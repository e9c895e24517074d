/** The loaded DBF table, as the table-reading library presents it to the converter: field
    descriptors in declared order and the text of every cell. Decoding the file is not part
    of this model; a table is given as data. */
module Dbf {

  /** An unsigned 8-bit value, the width of a descriptor's type code, length and decimal count. */
  newtype byte = x: int | 0 <= x < 256

  /** Field type codes of the dBase header. */
  const Character: byte := 0x43  // 'C'
  const Date: byte := 0x44       // 'D'
  const Float: byte := 0x46      // 'F'
  const Logical: byte := 0x4C    // 'L'
  const Numeric: byte := 0x4E    // 'N'

  datatype FieldDescriptor = FieldDescriptor(name: string, fieldType: byte, length: byte, decimalCount: byte)

  /** `records[i][j]` is the text of field j in record i. */
  datatype DbfTable = DbfTable(fields: seq<FieldDescriptor>, records: seq<seq<string>>) {

    /** Every record holds one cell per declared field. */
    predicate Valid() {
      forall i :: 0 <= i < |records| ==> |records[i]| == |fields|
    }

    function NumberOfRecords(): nat {
      |records|
    }

    function FieldValue(i: nat, j: nat): string
      requires i < |records| && j < |records[i]|
    {
      records[i][j]
    }
  }
}

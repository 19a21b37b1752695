/** A `csv.DictWriter` over an in-memory text buffer, at the level of field
    tuples: each `writerow` appends the dictionary's values in the order of
    the writer's field names. Quoting and line terminators are left to the
    library and not modelled. */
module Csv {

  /** The values of record in the order of fieldnames; a missing key is
      written as the empty string (`restval`). */
  function Ordered(fieldnames: seq<string>, record: map<string, string>): (row: seq<string>)
    ensures |row| == |fieldnames|
    ensures forall i :: 0 <= i < |fieldnames| ==>
      row[i] == (if fieldnames[i] in record then record[fieldnames[i]] else "")
  {
    if fieldnames == [] then []
    else
      var f := fieldnames[|fieldnames| - 1];
      Ordered(fieldnames[..|fieldnames| - 1], record) + [if f in record then record[f] else ""]
  }

  /** The writer and its `StringIO` buffer, seen as the rows written so far. */
  class Writer {
    const fieldnames: seq<string>
    var rows: seq<seq<string>>

    constructor (fieldnames: seq<string>)
      ensures this.fieldnames == fieldnames && rows == []
    {
      this.fieldnames := fieldnames;
      rows := [];
    }

    /** `writeheader()`: the field names as a row. */
    method WriteHeader()
      modifies this
      ensures rows == old(rows) + [fieldnames]
    {
      rows := rows + [fieldnames];
    }

    /** `writerow(record)`. A key that is not a field name raises ValueError,
        so callers pass only field names. */
    method WriteRow(record: map<string, string>)
      requires forall k :: k in record ==> k in fieldnames
      modifies this
      ensures rows == old(rows) + [Ordered(fieldnames, record)]
    {
      rows := rows + [Ordered(fieldnames, record)];
    }
  }
}

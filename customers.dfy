/** The `customers` table: one row per customer, keyed by `sell_to_customer_no_`.
    Only the columns the sorter reads or writes are kept. */
module Customers {
  import opened Wrappers

  /** `usa_email`, the key the audience service syncs on; the column may be NULL. */
  type Email = Option<string>

  datatype Customer = Customer(
    key: string,                     // sell_to_customer_no_
    email: Email,                    // usa_email
    lastOrderDate: Option<string>,   // last_order_date, 'YYYY-MM-DD' text
    segment: Option<string>,         // 'current', 'lapsed', 'extra lapsed' or NULL
    fileParseDate: Option<string>,   // file_parse_date, stamp of the importing file
    recordCreateDate: Option<string> // record_create_date
  )

  predicate KeysUnique(rows: seq<Customer>)
  {
    forall i, j :: 0 <= i < j < |rows| ==> rows[i].key != rows[j].key
  }

  /** `UPDATE customers SET ... WHERE key = record.key`: what `record.save()` does. */
  function Updated(rows: seq<Customer>, record: Customer): (r: seq<Customer>)
    ensures |r| == |rows|
  {
    seq(|rows|, i requires 0 <= i < |rows| => if rows[i].key == record.key then record else rows[i])
  }

  /** With unique keys, saving the record read from row `i` rewrites that row alone. */
  lemma UpdatedAt(rows: seq<Customer>, i: nat, record: Customer)
    requires KeysUnique(rows) && i < |rows| && rows[i].key == record.key
    ensures Updated(rows, record) == rows[i := record]
    ensures KeysUnique(rows[i := record])
  {
  }

  /** The table, which the sorter reads in row order and updates in place. */
  class Table {
    var rows: seq<Customer>

    ghost predicate Valid()
      reads this
    {
      KeysUnique(rows)
    }

    constructor (rows: seq<Customer>)
      requires KeysUnique(rows)
      ensures Valid() && this.rows == rows
    {
      this.rows := rows;
    }

    /** `record.save()`: with unique keys, the row holding the record's key is the
        only one rewritten. */
    method Save(record: Customer)
      requires Valid()
      modifies this
      ensures rows == Updated(old(rows), record)
      ensures forall i :: 0 <= i < |old(rows)| && old(rows)[i].key == record.key ==>
        rows == old(rows)[i := record] && Valid()
    {
      forall i | 0 <= i < |rows| && rows[i].key == record.key
        ensures Updated(rows, record) == rows[i := record] && KeysUnique(rows[i := record])
      {
        UpdatedAt(rows, i, record);
      }
      rows := Updated(rows, record);
    }
  }
}

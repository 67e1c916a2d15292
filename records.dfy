/** The entities of the inventory ledger: inventory rows, transaction records,
    the type tags a record carries and the outcome of an outbound request. */
module Records {

  datatype Option<T> = None | Some(value: T)

  /** One row of the Inventory table. The ISBN is the row label, not a field;
      the fields stand in the column order author, price, Title, qty. */
  datatype Row = Row(author: string, price: int, title: string, qty: int)

  /** One row of the Transactions worksheet: Date, ISBN, Title, Change, Type. */
  datatype Txn = Txn(date: string, isbn: string, title: string, change: int, tag: string)

  /** The three type tags the mutations write. */
  const InTag: string := "IN"
  const OutTag: string := "OUT"
  const PajuTag: string := "OUT-PAJU"

  /** What an outbound or Paju-outbound request ends in: done, rejected because
      the ISBN is not registered, or rejected because the stock is too low. */
  datatype Outcome = Ok | UnknownIsbn | InsufficientStock

  /** The in-memory inventory table keyed by ISBN: the row labels in table
      order, and the row stored under each label. */
  datatype Table = Table(index: seq<string>, rows: map<string, Row>) {

    /** Labels are unique and are exactly the keys of the rows. */
    ghost predicate Valid() {
      && (forall i, j :: 0 <= i < j < |index| ==> index[i] != index[j])
      && (forall isbn :: isbn in rows <==> isbn in index)
    }
  }
}

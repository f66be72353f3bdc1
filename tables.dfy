/**
 * A CSV table as the scripts see it after reading it: the set of column names of
 * the header row, and the data rows in file order, each row a map from column name
 * to cell value.
 */
module Tables {

  datatype Table<V> = Table(columns: set<string>, rows: seq<map<string, V>>) {

    /** Every row has a cell for exactly the header's columns (a missing cell is
        still a cell, holding a missing-value marker, never an absent key). */
    predicate WellFormed() {
      forall i :: 0 <= i < |rows| ==> rows[i].Keys == columns
    }
  }
}

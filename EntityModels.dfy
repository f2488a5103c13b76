/** The Northwind `Customer` entity, reduced to what the repository and controller look at. */
module EntityModels {
  import opened Wrappers

  /** The remaining columns (company name, contact, address, ...) by column name; no code here inspects them. */
  type Attributes = map<string, string>

  /** A customer row: its key, its nullable `Country` column and everything else. */
  datatype Customer = Customer(CustomerId: string, Country: Option<string>, Other: Attributes)

  /** No two rows of a listing share a customer id. */
  predicate DistinctIds(rows: seq<Customer>) {
    forall i, j :: 0 <= i < j < |rows| ==> rows[i].CustomerId != rows[j].CustomerId
  }

  /** A table keyed by customer id: every record sits under its own `CustomerId`. */
  ghost predicate KeyedById(table: map<string, Customer>) {
    forall k :: k in table ==> table[k].CustomerId == k
  }
}

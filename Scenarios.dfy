/**
 * Properties that span several calls, stated as client methods whose
 * postconditions follow from the repository's and controller's contracts alone.
 */
module Scenarios {
  import opened Wrappers
  import opened Text
  import opened EntityModels
  import opened Repositories
  import opened Controllers

  /**
   * Retrieving by two ids that differ only in ASCII case, from the same
   * tables, gives the same result and leaves the same tables behind.
   */
  method RetrieveIgnoresCase(a: CustomerRepository, b: CustomerRepository, id: string, otherCase: string)
    returns (ra: Option<Customer>, rb: Option<Customer>)
    requires a != b && a.Valid() && b.Valid()
    requires a.store == b.store && a.cache == b.cache
    requires EqualIgnoringCase(id, otherCase)
    modifies a, b
    ensures ra == rb
    ensures a.store == b.store && a.cache == b.cache
  {
    ToUpperSameKey(id, otherCase);
    ra := a.Retrieve(id);
    rb := b.Retrieve(otherCase);
  }

  /** A successful create is visible to a later retrieve by any casing of the id. */
  method CreateThenRetrieve(repo: CustomerRepository, c: Customer, lookup: string)
    returns (created: Option<Customer>, found: Option<Customer>)
    requires repo.Valid()
    requires ToUpper(c.CustomerId) !in repo.store
    requires EqualIgnoringCase(lookup, c.CustomerId)
    modifies repo
    ensures var stored := c.(CustomerId := ToUpper(c.CustomerId));
      created == Some(stored) && found == Some(stored)
  {
    created := repo.Create(c, 1);
    ToUpperSameKey(lookup, c.CustomerId);
    found := repo.Retrieve(lookup);
  }

  /** After a successful delete, a retrieve finds nothing and the cache holds no entry for the id. */
  method DeleteThenRetrieve(repo: CustomerRepository, id: string)
    returns (deleted: Option<bool>, found: Option<Customer>)
    requires repo.Valid()
    requires ToUpper(id) in repo.store
    modifies repo
    ensures deleted == Some(true)
    ensures found == None && ToUpper(id) !in repo.cache && ToUpper(id) !in repo.store
  {
    deleted := repo.Delete(id, 1);
    found := repo.Retrieve(id);
  }

  /**
   * The request sequence create "alfki" in Germany, read it, move it to
   * France, read it, delete it, read it: stored as "ALFKI", then 200, 204,
   * 200 showing France, 204 and finally 404.
   */
  method AlfkiWalkthrough(ctl: CustomersController, other: Attributes)
    returns (created: Response, fetched: Response, updated: Response,
             refetched: Response, deleted: Response, gone: Response)
    requires ctl.repo.Valid()
    requires "ALFKI" !in ctl.repo.store
    modifies ctl.repo
    ensures created == Created(Customer("ALFKI", Some("Germany"), other))
    ensures fetched == Ok(Customer("ALFKI", Some("Germany"), other))
    ensures updated == NoContent
    ensures refetched == Ok(Customer("ALFKI", Some("France"), other))
    ensures deleted == NoContent
    ensures gone == NotFound
  {
    assert ToUpper("alfki") == "ALFKI";
    UpperIsFixedPoint("ALFKI");
    created := ctl.Create(Some(Customer("alfki", Some("Germany"), other)), 1);
    fetched := ctl.GetCustomer("alfki");
    updated := ctl.Update("ALFKI", Customer("ALFKI", Some("France"), other), 1);
    refetched := ctl.GetCustomer("ALFKI");
    deleted := ctl.Delete("ALFKI", 1);
    gone := ctl.GetCustomer("ALFKI");
  }
}

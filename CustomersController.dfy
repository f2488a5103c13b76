/**
 * The HTTP layer over the repository: each action calls the repository and
 * decides the response status from what it returns. Routing, binding and the
 * payload formatting of error responses are not modelled.
 */
module Controllers {
  import opened Wrappers
  import opened Text
  import opened EntityModels
  import opened Repositories

  /** The results the actions produce. */
  datatype Response =
    | Ok(body: Customer)
    | Created(body: Customer)
    | NoContent
    | BadRequest
    | NotFound
  {
    /** The HTTP status code sent for this result. */
    function StatusCode(): (code: int)
      ensures 200 <= code < 500
      ensures code < 300 <==> !BadRequest? && !NotFound?
    {
      match this
      case Ok(_) => 200
      case Created(_) => 201
      case NoContent => 204
      case BadRequest => 400
      case NotFound => 404
    }
  }

  /** The LINQ filter of `GetCustomers`: the records whose country equals `country` exactly, in their order. */
  function WithCountry(all: seq<Customer>, country: string): (r: seq<Customer>)
    ensures |r| <= |all|
    ensures forall c :: c in r ==> c in all && c.Country == Some(country)
    ensures forall c :: c in all && c.Country == Some(country) ==> c in r
  {
    if all == [] then []
    else (if all[0].Country == Some(country) then [all[0]] else []) + WithCountry(all[1..], country)
  }

  /** Filtering commutes with concatenation: the kept records stay in their original order. */
  lemma {:induction false} WithCountryAppend(a: seq<Customer>, b: seq<Customer>, country: string)
    ensures WithCountry(a + b, country) == WithCountry(a, country) + WithCountry(b, country)
  {
    if a == [] {
      assert a + b == b;
    } else {
      var head := if a[0].Country == Some(country) then [a[0]] else [];
      assert (a + b)[0] == a[0];
      assert (a + b)[1..] == a[1..] + b;
      WithCountryAppend(a[1..], b, country);
      assert WithCountry(a + b, country) == head + (WithCountry(a[1..], country) + WithCountry(b, country));
    }
  }

  /** Each matching record is kept as often as it occurs; every other record is dropped. */
  lemma {:induction false} WithCountryCount(all: seq<Customer>, country: string, x: Customer)
    ensures multiset(WithCountry(all, country))[x] ==
      if x.Country == Some(country) then multiset(all)[x] else 0
  {
    if all != [] {
      WithCountryCount(all[1..], country, x);
      assert all == [all[0]] + all[1..];
    }
  }

  /** A filter over records that all match keeps the sequence as it is. */
  lemma {:induction false} WithCountryAllMatch(all: seq<Customer>, country: string)
    requires forall i :: 0 <= i < |all| ==> all[i].Country == Some(country)
    ensures WithCountry(all, country) == all
  {
    if all != [] {
      WithCountryAllMatch(all[1..], country);
    }
  }

  /** Filtering a listing without repeated ids gives a listing without repeated ids. */
  lemma {:induction false} WithCountryKeepsDistinct(all: seq<Customer>, country: string)
    requires DistinctIds(all)
    ensures DistinctIds(WithCountry(all, country))
  {
    if all != [] {
      WithCountryKeepsDistinct(all[1..], country);
      var rest := WithCountry(all[1..], country);
      forall c | c in rest
        ensures c.CustomerId != all[0].CustomerId
      {
        var p :| 0 <= p < |all[1..]| && all[1..][p] == c;
        assert all[p + 1] == c;
      }
    }
  }

  /** Whether `GetCustomers(country)` lists record `c`: no filter for a null or empty country. */
  predicate Selected(c: Customer, country: Option<string>) {
    country == None || country == Some("") || c.Country == country
  }

  class CustomersController {
    const repo: CustomerRepository

    constructor (repo: CustomerRepository)
      ensures this.repo == repo
    {
      this.repo := repo;
    }

    /**
     * `GET api/customers[?country=X]`: all stored records, or, for a non-empty
     * country, exactly those whose country equals it (case-sensitively).
     */
    method GetCustomers(country: Option<string>) returns (rows: seq<Customer>)
      requires repo.Valid()
      ensures forall i :: 0 <= i < |rows| ==>
        rows[i].CustomerId in repo.store && repo.store[rows[i].CustomerId] == rows[i]
      ensures DistinctIds(rows)
      ensures forall c :: c in rows ==> Selected(c, country)
      ensures forall k :: k in repo.store && Selected(repo.store[k], country) ==> repo.store[k] in rows
    {
      var all := repo.RetrieveAll();
      if country == None || country == Some("") {
        rows := all;
      } else {
        rows := WithCountry(all, country.value);
        WithCountryKeepsDistinct(all, country.value);
      }
    }

    /** `GET api/customers/{id}`: 404 exactly when no record has the upper-cased id, else 200 with it. */
    method GetCustomer(id: string) returns (resp: Response)
      requires repo.Valid()
      modifies repo
      ensures repo.Valid()
      ensures repo.store == old(repo.store)
      ensures var key := ToUpper(id);
        if key in old(repo.store) then
          resp == Ok(old(repo.store)[key]) && repo.cache == old(repo.cache)[key := old(repo.store)[key]]
        else
          resp == NotFound && repo.cache == old(repo.cache)
    {
      var c := repo.Retrieve(id);
      if c == None {
        resp := NotFound;
      } else {
        resp := Ok(c.value);
      }
    }

    /**
     * `POST api/customers`: 400 for a missing body or when the repository
     * returns null; 201 with the stored record (id upper-cased) otherwise.
     */
    method Create(body: Option<Customer>, affected: int) returns (resp: Response)
      requires repo.Valid()
      requires body.Some? && affected == 1 ==> ToUpper(body.value.CustomerId) !in repo.store
      modifies repo
      ensures repo.Valid()
      ensures
        if body.Some? && affected == 1 then
          var added := body.value.(CustomerId := ToUpper(body.value.CustomerId));
          && resp == Created(added)
          && repo.store == old(repo.store)[added.CustomerId := added]
          && repo.cache == old(repo.cache)[added.CustomerId := added]
        else
          resp == BadRequest && repo.store == old(repo.store) && repo.cache == old(repo.cache)
    {
      if body == None {
        return BadRequest;
      }
      var added := repo.Create(body.value, affected);
      if added == None {
        resp := BadRequest;
      } else {
        resp := Created(added.value);
      }
    }

    /**
     * `PUT api/customers/{id}`: 400 when the upper-cased path id and body id
     * differ, with no repository call; 404 when no record has that id; 204
     * otherwise, whether or not the write succeeded. The existence check has
     * already cached the old record, which a successful write replaces.
     */
    method Update(id: string, c: Customer, affected: int) returns (resp: Response)
      requires repo.Valid()
      modifies repo
      ensures repo.Valid()
      ensures var key := ToUpper(id);
        var updated := c.(CustomerId := ToUpper(c.CustomerId));
        if key != updated.CustomerId then
          resp == BadRequest && repo.store == old(repo.store) && repo.cache == old(repo.cache)
        else if key !in old(repo.store) then
          resp == NotFound && repo.store == old(repo.store) && repo.cache == old(repo.cache)
        else if affected == 1 then
          && resp == NoContent
          && repo.store == old(repo.store)[key := updated]
          && repo.cache == old(repo.cache)[key := updated]
        else
          && resp == NoContent
          && repo.store == old(repo.store)
          && repo.cache == old(repo.cache)[key := old(repo.store)[key]]
    {
      var key := ToUpper(id);
      var body := c.(CustomerId := ToUpper(c.CustomerId));
      if key != body.CustomerId {
        return BadRequest;
      }
      ToUpperIdempotent(id);
      var existing := repo.Retrieve(key);
      if existing == None {
        return NotFound;
      }
      ToUpperIdempotent(c.CustomerId);
      var _ := repo.Update(body, affected);
      resp := NoContent;
    }

    /**
     * `DELETE api/customers/{id}`: 400 for the literal id `"bad"` (compared
     * before upper-casing) with no repository call; 404 when no record has the
     * upper-cased id; 204 when the repository reports the removal; 400
     * otherwise. After a 204 neither table holds the id, although the
     * existence check has just cached it.
     */
    method Delete(id: string, affected: int) returns (resp: Response)
      requires repo.Valid()
      modifies repo
      ensures repo.Valid()
      ensures var key := ToUpper(id);
        if id == "bad" then
          resp == BadRequest && repo.store == old(repo.store) && repo.cache == old(repo.cache)
        else if key !in old(repo.store) then
          resp == NotFound && repo.store == old(repo.store) && repo.cache == old(repo.cache)
        else if affected == 1 then
          && resp == NoContent
          && repo.store == old(repo.store) - {key}
          && repo.cache == old(repo.cache) - {key}
        else
          && resp == BadRequest
          && repo.store == old(repo.store)
          && repo.cache == old(repo.cache)[key := old(repo.store)[key]]
      ensures resp == NoContent ==> ToUpper(id) !in repo.cache && ToUpper(id) !in repo.store
    {
      if id == "bad" {
        return BadRequest;
      }
      var existing := repo.Retrieve(id);
      if existing == None {
        return NotFound;
      }
      var deleted := repo.Delete(id, affected);
      if deleted == Some(true) {
        resp := NoContent;
      } else {
        resp := BadRequest;
      }
    }
  }

}

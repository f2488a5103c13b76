# Northwind customer service: cache-aside repository and controller

This project models the core of the Northwind Web API's customer service:

- **`CustomerRepository`** keeps two tables keyed by customer id: the database's `Customers` table (`store`) and the process-wide in-memory cache (`cache`). `Create` and `Update` write the store and then the cache. `Retrieve` reads the cache first. On a miss it falls back to the store and fills the cache from it. `Delete` checks the store, then removes the record from both tables. `RetrieveAll` reads the store only. Every single-record operation upper-cases the id first.
- **`CustomersController`** turns repository results into HTTP outcomes (200, 201, 204, 400 and 404). It also holds the case-sensitive country filter, the id-mismatch check of `PUT` and the reserved id `"bad"` of `DELETE`.

Files:

- `Wrappers.dfy`: `Option`, standing for C#'s nullable results.
- `Text.dfy`: ASCII upper-casing of ids and its lemmas.
- `EntityModels.dfy`: the `Customer` record.
- `CustomerRepository.dfy`: the repository class.
- `CustomersController.dfy`: the response type, the country filter and its lemmas, and the controller class.
- `Scenarios.dfy`: client methods for properties that span several calls.

Modelling choices:

- The database's affected-row count is a parameter of each write. The code branches only on whether it equals one. When the count is not one, the table is taken to be unchanged.
- `Valid()` says two things. Every stored record sits under its own id. Every cache entry equals the store's record under the same key. Each operation preserves `Valid()`, so a cache hit always returns the store's current record. This holds because the model has no writers outside this service.
- Where the code differs from what a reader might expect, the model follows the code:
  - `DeleteAsync` returns null both when the record is absent and when the removal fails, so the two cases cannot be told apart. `Delete` never returns `Some(false)`.
  - The country filter lives in the controller, not in the repository.
  - `CreateAsync` does not check that the id is non-empty.
  - The controller's `Update` answers 204 whatever `UpdateAsync` returned.

## Model

| member | source | states |
|---|---|---|
| `Text.ToUpper` | PraktiskaAppar/Northwind.WebApi/Repositories/CustomerRepository.cs:68 | upper-casing keeps the length, raises exactly the ASCII lower-case letters position by position, and leaves no lower-case letter |
| `Text.ToUpperIdempotent` | PraktiskaAppar/Northwind.WebApi/Controllers/CustomersController.cs:85-95 | normalising an already normalised id changes nothing, so the repository's second upper-casing of the controller's ids is harmless |
| `Text.UpperIsFixedPoint` | PraktiskaAppar/Northwind.WebApi/Repositories/CustomerRepository.cs:42 | an id without lower-case letters (such as "ALFKI") is its own normal form |
| `Text.ToUpperSameKey` | PraktiskaAppar/Northwind.WebApi/Repositories/CustomerRepository.cs:66-68 | two ids reach the same key if and only if they are equal up to ASCII case |
| `Repositories.CustomerRepository.constructor` | PraktiskaAppar/Northwind.WebApi/Repositories/CustomerRepository.cs:17-22 | a repository over a given table and shared cache, which must be keyed by id and coherent |
| `Repositories.CustomerRepository.Create` | PraktiskaAppar/Northwind.WebApi/Repositories/CustomerRepository.cs:24-38 | with one affected row: returns the record with its id upper-cased and stores and caches it under that id; otherwise returns null and changes neither table; keeps `Valid()` |
| `Repositories.CustomerRepository.Retrieve` | PraktiskaAppar/Northwind.WebApi/Repositories/CustomerRepository.cs:66-84 | cache hit: returns the cached record and changes nothing; miss with a stored record: returns it and caches it; miss without one: returns null and changes nothing; the store never changes; the result is always the store's record for the upper-cased id |
| `Repositories.CustomerRepository.RetrieveAll` | PraktiskaAppar/Northwind.WebApi/Repositories/CustomerRepository.cs:61-64 | returns every stored record exactly once, each under its own id, and nothing else; changes neither table |
| `Repositories.CustomerRepository.Update` | PraktiskaAppar/Northwind.WebApi/Repositories/CustomerRepository.cs:87-100 | with one affected row: returns the record with its id upper-cased and writes it to the store and the cache; otherwise returns null and changes neither table; keeps `Valid()` |
| `Repositories.CustomerRepository.Delete` | PraktiskaAppar/Northwind.WebApi/Repositories/CustomerRepository.cs:40-59 | id absent from the store: null, nothing changes; present with one affected row: true, the id is removed from store and cache; present otherwise: null, nothing changes; never false |
| `Repositories.CustomerRepository.Evict` | PraktiskaAppar/Northwind.WebApi/Repositories/CustomerRepository.cs:11-14 | the cache dropping an entry on its own removes only that cache entry and keeps `Valid()` |
| `Controllers.Response.StatusCode` | PraktiskaAppar/Northwind.WebApi/Controllers/CustomersController.cs:79-82 | each outcome has its status code; only Ok, Created and NoContent are success codes (below 300) |
| `Controllers.WithCountry` | PraktiskaAppar/Northwind.WebApi/Controllers/CustomersController.cs:33-34 | the filter keeps a record if and only if its country equals the argument, and never grows the sequence |
| `Controllers.WithCountryAppend` | PraktiskaAppar/Northwind.WebApi/Controllers/CustomersController.cs:33-34 | filtering a concatenation is the concatenation of the filtered parts, so the original order is kept |
| `Controllers.WithCountryCount` | PraktiskaAppar/Northwind.WebApi/Controllers/CustomersController.cs:33-34 | a matching record occurs in the result as often as in the input; a non-matching one does not occur |
| `Controllers.WithCountryAllMatch` | PraktiskaAppar/Northwind.WebApi/Controllers/CustomersController.cs:33-34 | when every record matches, the filter returns its input unchanged |
| `Controllers.WithCountryKeepsDistinct` | PraktiskaAppar/Northwind.WebApi/Controllers/CustomersController.cs:33-34 | filtering a listing without repeated ids yields one without repeated ids |
| `Controllers.CustomersController.constructor` | PraktiskaAppar/Northwind.WebApi/Controllers/CustomersController.cs:15-18 | the controller holds the repository it is given |
| `Controllers.CustomersController.GetCustomers` | PraktiskaAppar/Northwind.WebApi/Controllers/CustomersController.cs:25-36 | null or empty country: every stored record once; otherwise exactly the stored records whose country equals it (case-sensitive), each once |
| `Controllers.CustomersController.GetCustomer` | PraktiskaAppar/Northwind.WebApi/Controllers/CustomersController.cs:42-50 | 404 exactly when no stored record has the upper-cased id, with no change; otherwise 200 with that record, which is then cached under the id while every other cache entry and the store stay as they were |
| `Controllers.CustomersController.Create` | PraktiskaAppar/Northwind.WebApi/Controllers/CustomersController.cs:57-75 | 201 with the upper-cased record exactly when a body was sent and one row was affected, and the record is then stored and cached; 400 and no change otherwise |
| `Controllers.CustomersController.Update` | PraktiskaAppar/Northwind.WebApi/Controllers/CustomersController.cs:83-99 | 400 with no change when the upper-cased path and body ids differ; 404 with no change when the id is not stored; otherwise 204 whether or not the write succeeded, with both tables updated on success and only the existence check's cache fill on failure |
| `Controllers.CustomersController.Delete` | PraktiskaAppar/Northwind.WebApi/Controllers/CustomersController.cs:106-138 | 400 with no change for the literal "bad" (not "BAD"); 404 with no change when the id is not stored; 204 with the id gone from store and cache on one affected row; 400 otherwise, with the record left cached by the existence check |
| `Scenarios.RetrieveIgnoresCase` | PraktiskaAppar/Northwind.WebApi/Repositories/CustomerRepository.cs:66-84 | from equal tables, retrieving by two ids equal up to case gives equal results and equal tables |
| `Scenarios.CreateThenRetrieve` | PraktiskaAppar/Northwind.WebApi/Repositories/CustomerRepository.cs:24-84 | after a successful create, retrieving by any casing of the id returns the created record with its id upper-cased |
| `Scenarios.DeleteThenRetrieve` | PraktiskaAppar/Northwind.WebApi/Repositories/CustomerRepository.cs:40-84 | after a successful delete, a retrieve returns null and neither table holds the id |
| `Scenarios.AlfkiWalkthrough` | PraktiskaAppar/Northwind.WebApi/Controllers/CustomersController.cs:42-138 | create "alfki" in Germany, read it, move it to France, read it, delete it, read it: 201 with "ALFKI", 200, 204, 200 showing France, 204, 404 |

## Left out

- Asynchrony: every `Task`-returning operation is modelled as a synchronous call.
- Timing of the 30-minute sliding expiration: the cache is a plain map, and `Evict` lets an entry disappear at any point.
- Concurrent requests sharing the singleton cache, and writers outside this service. With such writers the cache could hold stale records, which the coherence invariant rules out.
- Entity Framework internals: change tracking and how `SaveChangesAsync` counts rows. The count is an input.
- Controllers.CustomersController.Update: under default change tracking, a cache miss in the existence check leaves the loaded row tracked, and updating a second instance with the same key would then raise; the model answers 204 and writes the store in that case.
- Exceptions raised by the database layer, such as a duplicate-key insert or an update of a missing row.
- Repositories.CustomerRepository.Create: requires that a count of one comes only with a free key, because the database raises instead of inserting a duplicate key.
- Repositories.CustomerRepository.Update: requires that a count of one comes only with a stored key, because updating a missing row raises instead.
- Culture-sensitive upper-casing: `ToUpper` is ASCII upper-casing.
- Object aliasing: `CreateAsync` overwrites the caller's object, and the cache holds the same reference. The model uses values.
- Repositories.CustomerRepository.RetrieveAll: the order in which the database returns rows is not specified.
- Controllers.CustomersController.GetCustomers: the ensures do not restate that the filtered rows keep the order of `RetrieveAll`. The filter's order is stated by `WithCountryAppend`.
- The null-body check in the controller's `Update`: the body is dereferenced before that check, so a null body throws first. The body is modelled as non-null.
- Error payloads, request paths and route links (the problem-details object, the Location header): framework output formatting.
- `Program.cs`: service registration, formatters, OpenAPI and middleware wiring.

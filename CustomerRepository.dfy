/**
 * The cache-aside customer repository. It mediates between the persistent
 * customer table (`store`) and the process-wide in-memory cache (`cache`),
 * both keyed by the upper-cased customer id.
 *
 * The database's affected-row count, which the source reads from
 * `SaveChangesAsync`, is a parameter of each write; when it is not one the
 * table is taken to be unchanged.
 */
module Repositories {
  import opened Wrappers
  import opened Text
  import opened EntityModels

  /** Every cache entry is the store's record under the same key. */
  ghost predicate CacheCoherent(store: map<string, Customer>, cache: map<string, Customer>) {
    forall k :: k in cache ==> k in store && cache[k] == store[k]
  }

  /** `rows` lists the records of `store`, each exactly once, in some order. */
  ghost predicate Enumerates(rows: seq<Customer>, store: map<string, Customer>) {
    && (forall i :: 0 <= i < |rows| ==> rows[i].CustomerId in store && store[rows[i].CustomerId] == rows[i])
    && DistinctIds(rows)
    && (forall k :: k in store ==> store[k] in rows)
  }

  class CustomerRepository {
    /** The `Customers` table of the database. */
    var store: map<string, Customer>
    /** The in-memory cache shared by every request. */
    var cache: map<string, Customer>

    ghost predicate Valid()
      reads this
    {
      KeyedById(store) && CacheCoherent(store, cache)
    }

    /** A repository over a database and the shared cache as they stand when a request starts. */
    constructor (db: map<string, Customer>, memoryCache: map<string, Customer>)
      requires KeyedById(db) && CacheCoherent(db, memoryCache)
      ensures Valid()
      ensures store == db && cache == memoryCache
    {
      store := db;
      cache := memoryCache;
    }

    /**
     * `CreateAsync`: insert the record under its upper-cased id; on one affected
     * row also cache it and return it, otherwise return null and leave the
     * cache alone. The database reports one inserted row only for a free key.
     */
    method Create(c: Customer, affected: int) returns (r: Option<Customer>)
      requires Valid()
      requires affected == 1 ==> ToUpper(c.CustomerId) !in store
      modifies this
      ensures Valid()
      ensures var added := c.(CustomerId := ToUpper(c.CustomerId));
        if affected == 1 then
          && r == Some(added)
          && store == old(store)[added.CustomerId := added]
          && cache == old(cache)[added.CustomerId := added]
        else
          r == None && store == old(store) && cache == old(cache)
    {
      var added := c.(CustomerId := ToUpper(c.CustomerId));
      if affected == 1 {
        store := store[added.CustomerId := added];
        cache := cache[added.CustomerId := added];
        r := Some(added);
      } else {
        r := None;
      }
    }

    /**
     * `RetrieveAsync`: a cache hit is returned as it is and changes nothing; on a
     * miss the store is searched, and a record found there is cached before it
     * is returned. Because the cache is coherent, the result is always the
     * store's record for the upper-cased id.
     */
    method Retrieve(id: string) returns (r: Option<Customer>)
      requires Valid()
      modifies this
      ensures Valid()
      ensures store == old(store)
      ensures var key := ToUpper(id);
        if key in old(cache) then
          r == Some(old(cache)[key]) && cache == old(cache)
        else if key in old(store) then
          r == Some(old(store)[key]) && cache == old(cache)[key := old(store)[key]]
        else
          r == None && cache == old(cache)
      ensures var key := ToUpper(id);
        && r == (if key in store then Some(store[key]) else None)
        && (r.Some? ==> key in cache && cache[key] == r.value && r.value.CustomerId == key)
    {
      var key := ToUpper(id);
      if key in cache {
        r := Some(cache[key]);
        return;
      }
      // the store is searched for the first record whose id is `key`; in a table keyed by id
      // that is the record stored under `key`
      if key !in store {
        r := None;
        return;
      }
      var fromDb := store[key];
      cache := cache[fromDb.CustomerId := fromDb];
      r := Some(fromDb);
    }

    /** `RetrieveAllAsync`: every record of the store, read from the store alone. */
    method RetrieveAll() returns (rows: seq<Customer>)
      requires Valid()
      ensures Enumerates(rows, store)
    {
      rows := [];
      var pending := store.Keys;
      while pending != {}
        invariant pending <= store.Keys
        invariant forall i :: 0 <= i < |rows| ==>
          rows[i].CustomerId in store.Keys - pending && store[rows[i].CustomerId] == rows[i]
        invariant DistinctIds(rows)
        invariant forall k :: k in store.Keys - pending ==> store[k] in rows
        decreases pending
      {
        var k :| k in pending;
        rows := rows + [store[k]];
        pending := pending - {k};
      }
    }

    /**
     * `UpdateAsync`: write the record under its upper-cased id; on one affected
     * row also refresh the cache and return it, otherwise return null and leave
     * the cache alone. The database reports one updated row only for a key it holds.
     */
    method Update(c: Customer, affected: int) returns (r: Option<Customer>)
      requires Valid()
      requires affected == 1 ==> ToUpper(c.CustomerId) in store
      modifies this
      ensures Valid()
      ensures var updated := c.(CustomerId := ToUpper(c.CustomerId));
        if affected == 1 then
          && r == Some(updated)
          && store == old(store)[updated.CustomerId := updated]
          && cache == old(cache)[updated.CustomerId := updated]
        else
          r == None && store == old(store) && cache == old(cache)
    {
      var updated := c.(CustomerId := ToUpper(c.CustomerId));
      if affected == 1 {
        store := store[updated.CustomerId := updated];
        cache := cache[updated.CustomerId := updated];
        r := Some(updated);
      } else {
        r := None;
      }
    }

    /**
     * `DeleteAsync`: null when the store has no record for the upper-cased id;
     * otherwise remove it, and on one affected row also drop the cache entry and
     * return true. A failed removal returns null as well, so the result is
     * never `Some(false)`.
     */
    method Delete(id: string, affected: int) returns (r: Option<bool>)
      requires Valid()
      modifies this
      ensures Valid()
      ensures r != Some(false)
      ensures var key := ToUpper(id);
        if key in old(store) && affected == 1 then
          && r == Some(true)
          && store == old(store) - {key}
          && cache == old(cache) - {key}
        else
          r == None && store == old(store) && cache == old(cache)
    {
      var key := ToUpper(id);
      if key !in store {
        r := None;
        return;
      }
      if affected == 1 {
        store := store - {key};
        cache := cache - {key};
        r := Some(true);
      } else {
        r := None;
      }
    }

    /** The cache facility dropping an entry on its own (the sliding expiration firing). */
    method Evict(key: string)
      requires Valid()
      modifies this
      ensures Valid()
      ensures store == old(store) && cache == old(cache) - {key}
    {
      cache := cache - {key};
    }
  }
}

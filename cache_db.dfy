/** The two-table recipe cache of src/cache_db.py: meal records keyed by meal
    id (`meals`) and filter results keyed by ingredient (`ingredient_map`),
    each row stamped with the second it was written. Rows older than the
    time-to-live read as absent. The clock is the explicit `now` argument. */
module CacheDb {

  import opened Optional
  import opened Json

  /** `CACHE_TTL_SECONDS`: one week. */
  const CacheTtlSeconds: int := 7 * 24 * 60 * 60

  /** A stored row: the payload and `updated_at`. */
  datatype Row<T> = Row(payload: T, updatedAt: int)

  /** A table keyed by its primary key. */
  type Table<T> = map<string, Row<T>>

  /** The row for key is present and not older than the time-to-live at `now`. */
  predicate Fresh<T>(t: Table<T>, key: string, now: int)
  {
    key in t && now - t[key].updatedAt <= CacheTtlSeconds
  }

  /** The read half of `get_cached_meal` and `get_cached_filter`: None when
      there is no row or the row has expired, the stored payload otherwise. */
  function Read<T>(t: Table<T>, key: string, now: int): (r: Option<T>)
    ensures key !in t ==> r == None
    ensures key in t && now - t[key].updatedAt > CacheTtlSeconds ==> r == None
    ensures key in t && now - t[key].updatedAt <= CacheTtlSeconds ==> r == Some(t[key].payload)
  {
    if Fresh(t, key, now) then Some(t[key].payload) else None
  }

  /** `INSERT OR REPLACE` stamped with `now`. */
  function Write<T>(t: Table<T>, key: string, payload: T, now: int): (r: Table<T>)
    ensures r.Keys == t.Keys + {key}
    ensures r[key] == Row(payload, now)
    ensures forall k :: k in t && k != key ==> r[k] == t[k]
  {
    t[key := Row(payload, now)]
  }

  /** A row written at `now` is returned by every read up to and including
      `now + CacheTtlSeconds`, and by none after. */
  lemma ReadAfterWrite<T>(t: Table<T>, key: string, payload: T, now: int, later: int)
    requires now <= later
    ensures later <= now + CacheTtlSeconds ==> Read(Write(t, key, payload, now), key, later) == Some(payload)
    ensures later > now + CacheTtlSeconds ==> Read(Write(t, key, payload, now), key, later) == None
  {
  }

  /** A row exactly one time-to-live old is still returned: expiry is strict. */
  lemma ExpiryIsStrict<T>(t: Table<T>, key: string, now: int)
    requires key in t && now == t[key].updatedAt + CacheTtlSeconds
    ensures Read(t, key, now) == Some(t[key].payload)
  {
  }

  /** A write leaves every read of another key as it was. */
  lemma WriteKeepsOtherKeys<T>(t: Table<T>, key: string, other: string, payload: T, now: int, at: int)
    requires other != key
    ensures Read(Write(t, key, payload, now), other, at) == Read(t, other, at)
  {
  }

  /** Rewriting a key replaces its payload and its time stamp, so an expired
      row becomes fresh again. */
  lemma WriteRefreshes<T>(t: Table<T>, key: string, payload: T, now: int)
    requires key in t && now - t[key].updatedAt > CacheTtlSeconds
    ensures Read(t, key, now) == None
    ensures Read(Write(t, key, payload, now), key, now) == Some(payload)
  {
  }

  /** The cache database: one table of meal records, one of filter results. */
  class Cache {
    var meals: Table<Payload>
    var filters: Table<seq<Payload>>

    /** A database holding the given rows. */
    constructor (meals: Table<Payload>, filters: Table<seq<Payload>>)
      ensures this.meals == meals && this.filters == filters
    {
      this.meals := meals;
      this.filters := filters;
    }

    /** `get_cached_meal` */
    method GetCachedMeal(mealId: string, now: int) returns (r: Option<Payload>)
      ensures r == Read(meals, mealId, now)
    {
      if mealId in meals && now - meals[mealId].updatedAt <= CacheTtlSeconds {
        r := Some(meals[mealId].payload);
      } else {
        r := None;
      }
    }

    /** `set_cached_meal`: replaces the meal row; the filter table is untouched. */
    method SetCachedMeal(mealId: string, payload: Payload, now: int)
      modifies this
      ensures meals == Write(old(meals), mealId, payload, now)
      ensures filters == old(filters)
    {
      meals := meals[mealId := Row(payload, now)];
    }

    /** `get_cached_filter` */
    method GetCachedFilter(ingredient: string, now: int) returns (r: Option<seq<Payload>>)
      ensures r == Read(filters, ingredient, now)
    {
      if ingredient in filters && now - filters[ingredient].updatedAt <= CacheTtlSeconds {
        r := Some(filters[ingredient].payload);
      } else {
        r := None;
      }
    }

    /** `set_cached_filter`: replaces the filter row; the meal table is untouched. */
    method SetCachedFilter(ingredient: string, payload: seq<Payload>, now: int)
      modifies this
      ensures filters == Write(old(filters), ingredient, payload, now)
      ensures meals == old(meals)
    {
      filters := filters[ingredient := Row(payload, now)];
    }

    /** `clear_cache`: deletes every row of both tables, so every read misses. */
    method ClearCache()
      modifies this
      ensures meals == map[] && filters == map[]
      ensures forall k: string, at: int :: Read(meals, k, at) == None && Read(filters, k, at) == None
    {
      meals := map[];
      filters := map[];
    }
  }
}

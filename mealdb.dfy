/** The recipe-API wrapper of src/api_themealdb.py: the canonical parameter
    key of its request memo, the ingredient slots of a meal record, and the
    cache-then-fetch logic of `filter_by_ingredient` and `lookup_meal`. The
    HTTP request itself is an endpoint function. */
module MealDb {

  import opened Optional
  import opened Json
  import opened Text
  import opened StringOrder
  import opened CacheDb

  // ---------------------------------------------------------------------
  // _freeze_params
  // ---------------------------------------------------------------------

  /** A Python dict of query parameters, as its items in insertion order. */
  type Params = seq<(string, string)>

  /** No key occurs twice, as in every dict. */
  predicate DistinctKeys(ps: Params)
  {
    forall i, j :: 0 <= i < j < |ps| ==> ps[i].0 != ps[j].0
  }

  /** Strictly increasing by key. With distinct keys this is the order
      `sorted` gives the item tuples, since the keys decide every comparison. */
  predicate KeySorted(ps: Params)
  {
    forall i, j :: 0 <= i < j < |ps| ==> Less(ps[i].0, ps[j].0)
  }

  function InsertByKey(p: (string, string), ps: Params): (r: Params)
    requires KeySorted(ps)
    requires forall k :: 0 <= k < |ps| ==> ps[k].0 != p.0
    ensures KeySorted(r)
    ensures multiset(r) == multiset(ps) + multiset{p}
  {
    if ps == [] then [p]
    else if Less(p.0, ps[0].0) then
      forall k | 0 < k < |ps| ensures Less(p.0, ps[k].0) {
        LessTransitive(p.0, ps[0].0, ps[k].0);
      }
      [p] + ps
    else
      LessTotal(p.0, ps[0].0);
      var tail := ps[1..];
      var rest := InsertByKey(p, tail);
      forall k | 0 <= k < |rest| ensures Less(ps[0].0, rest[k].0) {
        assert rest[k] in multiset(rest);
        if rest[k] != p {
          assert rest[k] in multiset(tail);
          var j :| 0 <= j < |tail| && tail[j] == rest[k];
          assert ps[j + 1] == rest[k];
        }
      }
      assert ps == [ps[0]] + tail;
      [ps[0]] + rest
  }

  /** `sorted(params.items())` */
  function SortByKey(ps: Params): (r: Params)
    requires DistinctKeys(ps)
    ensures KeySorted(r)
    ensures multiset(r) == multiset(ps)
  {
    if ps == [] then []
    else
      var init := ps[..|ps| - 1];
      var last := ps[|ps| - 1];
      assert DistinctKeys(init);
      var r0 := SortByKey(init);
      forall k | 0 <= k < |r0| ensures r0[k].0 != last.0 {
        assert r0[k] in multiset(init);
        var j :| 0 <= j < |init| && init[j] == r0[k];
      }
      assert ps == init + [last];
      InsertByKey(last, r0)
  }

  /** `_freeze_params`: the empty tuple for None or an empty dict, the items
      sorted by key otherwise. */
  function FreezeParams(params: Option<Params>): (r: Params)
    requires params.Some? ==> DistinctKeys(params.value)
    ensures params == None || params == Some([]) ==> r == []
    ensures params.Some? ==> KeySorted(r) && multiset(r) == multiset(params.value)
  {
    if params == None || params == Some([]) then [] else SortByKey(params.value)
  }

  /** The head of a key-sorted list has the least key of all its items. */
  lemma HeadIsLeast(a: Params, q: (string, string))
    requires KeySorted(a) && q in multiset(a)
    ensures q == a[0] || Less(a[0].0, q.0)
  {
    var j :| 0 <= j < |a| && a[j] == q;
  }

  lemma KeySortedTail(a: Params)
    requires KeySorted(a) && a != []
    ensures KeySorted(a[1..])
  {
  }

  lemma MultisetTails(a: Params, b: Params)
    requires a != [] && b != [] && a[0] == b[0] && multiset(a) == multiset(b)
    ensures multiset(a[1..]) == multiset(b[1..])
  {
    assert a == [a[0]] + a[1..] && b == [b[0]] + b[1..];
    assert multiset(a[1..]) == multiset(a) - multiset{a[0]};
    assert multiset(b[1..]) == multiset(b) - multiset{a[0]};
  }

  /** Two key-sorted item lists with the same items are the same list. */
  lemma {:induction false} KeySortedUnique(a: Params, b: Params)
    requires KeySorted(a) && KeySorted(b)
    requires multiset(a) == multiset(b)
    ensures a == b
  {
    assert |a| == |multiset(a)| == |multiset(b)| == |b|;
    if a != [] {
      assert a[0] in multiset(a) && b[0] in multiset(b);
      HeadIsLeast(b, a[0]);
      HeadIsLeast(a, b[0]);
      LessNotBoth(a[0].0, b[0].0);
      MultisetTails(a, b);
      KeySortedTail(a);
      KeySortedTail(b);
      KeySortedUnique(a[1..], b[1..]);
      assert a == [a[0]] + a[1..] && b == [b[0]] + b[1..];
    }
  }

  /** Equal dicts, whatever their insertion order, freeze to the same tuple:
      the frozen parameters are a sound memo key. */
  lemma FreezeParamsOrderFree(a: Params, b: Params)
    requires DistinctKeys(a) && DistinctKeys(b)
    requires multiset(a) == multiset(b)
    ensures FreezeParams(Some(a)) == FreezeParams(Some(b))
  {
    assert |a| == |multiset(a)| == |multiset(b)| == |b|;
    if a != [] {
      KeySortedUnique(FreezeParams(Some(a)), FreezeParams(Some(b)));
    }
  }

  // ---------------------------------------------------------------------
  // parse_ingredients
  // ---------------------------------------------------------------------

  function DigitChar(d: nat): char
    requires d < 10
  {
    ('0' as int + d) as char
  }

  /** `str(n)` */
  function NatToString(n: nat): string
  {
    if n < 10 then [DigitChar(n)] else NatToString(n / 10) + [DigitChar(n % 10)]
  }

  /** `f"strIngredient{i}"` */
  function SlotKey(i: nat): string
  {
    "strIngredient" + NatToString(i)
  }

  /** `(meal.get(key) or "").strip().lower()` */
  function SlotValue(meal: Payload, i: nat): string
  {
    Lower(Strip(Field(meal, SlotKey(i))))
  }

  /** The non-empty slot values of slots 1..n, in slot order. */
  function SlotsUpTo(meal: Payload, n: nat): seq<string>
  {
    if n == 0 then []
    else
      var v := SlotValue(meal, n);
      SlotsUpTo(meal, n - 1) + (if v != "" then [v] else [])
  }

  /** At most one entry per slot, and every entry is non-empty, stripped and
      lower-case. */
  lemma {:induction false} SlotsUpToClean(meal: Payload, n: nat)
    ensures |SlotsUpTo(meal, n)| <= n
    ensures forall k :: 0 <= k < |SlotsUpTo(meal, n)| ==>
      SlotsUpTo(meal, n)[k] != "" && Strip(SlotsUpTo(meal, n)[k]) == SlotsUpTo(meal, n)[k]
      && Lower(SlotsUpTo(meal, n)[k]) == SlotsUpTo(meal, n)[k]
  {
    if n > 0 {
      SlotsUpToClean(meal, n - 1);
      LowerStripIsClean(Field(meal, SlotKey(n)));
    }
  }

  /** An entry of `SlotsUpTo(meal, n)` is exactly a non-empty value of one of
      the slots 1..n. */
  lemma {:induction false} SlotsUpToMembership(meal: Payload, n: nat, x: string)
    ensures x in SlotsUpTo(meal, n) <==> x != "" && exists i :: 1 <= i <= n && SlotValue(meal, i) == x
  {
    if n > 0 {
      SlotsUpToMembership(meal, n - 1, x);
      if x in SlotsUpTo(meal, n) && x !in SlotsUpTo(meal, n - 1) {
        assert SlotValue(meal, n) == x;
      }
    }
  }

  /** A blank, null or missing slot contributes nothing. */
  lemma {:induction false} BlankSlotSkipped(meal: Payload, n: nat)
    requires n > 0 && Blank(Field(meal, SlotKey(n)))
    ensures SlotsUpTo(meal, n) == SlotsUpTo(meal, n - 1)
  {
    LowerStripIsClean(Field(meal, SlotKey(n)));
    assert SlotsUpTo(meal, n - 1) + [] == SlotsUpTo(meal, n - 1);
  }

  /** The number of ingredient slots of a meal record. */
  const IngredientSlots: nat := 20

  /** `parse_ingredients`: the non-empty, stripped, lower-cased values of the
      slots `strIngredient1` .. `strIngredient20`, in slot order. */
  method ParseIngredients(meal: Payload) returns (ingredients: seq<string>)
    ensures ingredients == SlotsUpTo(meal, IngredientSlots)
  {
    ingredients := [];
    for i := 1 to IngredientSlots + 1
      invariant ingredients == SlotsUpTo(meal, i - 1)
    {
      var key := "strIngredient" + NatToString(i);
      var value := Lower(Strip(Field(meal, key)));
      if value != "" {
        ingredients := ingredients + [value];
      }
    }
  }

  // ---------------------------------------------------------------------
  // filter_by_ingredient and lookup_meal
  // ---------------------------------------------------------------------

  /** The HTTP endpoint: for a query it gives the `meals` field of the JSON
      reply (None when it is null or absent), or Raised when the request
      or `raise_for_status` raises. */
  type Endpoint = string -> Outcome<Option<seq<Payload>>>

  /** `data.get("meals") or []` */
  function MealsOf(m: Option<seq<Payload>>): seq<Payload>
  {
    if m.Some? then m.value else []
  }

  /** What `filter_by_ingredient` answers when it has to ask the endpoint. */
  function FilterAnswer(api: Endpoint, ingredient: string): Outcome<seq<Payload>>
  {
    match api(ingredient)
    case Raised => Raised
    case Done(m) => Done(MealsOf(m))
  }

  /** What `lookup_meal` answers when it has to ask the endpoint: the first
      record, or None when there is none. */
  function LookupAnswer(api: Endpoint, mealId: string): Outcome<Option<Payload>>
  {
    match api(mealId)
    case Raised => Raised
    case Done(m) => Done(if MealsOf(m) != [] then Some(MealsOf(m)[0]) else None)
  }

  /** Every stored filter row is what the endpoint answers for its ingredient. */
  predicate FiltersAgree(t: Table<seq<Payload>>, api: Endpoint)
  {
    forall k :: k in t ==> FilterAnswer(api, k) == Done(t[k].payload)
  }

  /** Every stored meal row is the record the endpoint answers for its id. */
  predicate MealsAgree(t: Table<Payload>, api: Endpoint)
  {
    forall k :: k in t ==> LookupAnswer(api, k) == Done(Some(t[k].payload))
  }

  /** `filter_by_ingredient`: a cache hit (even an empty list) is returned as
      it is; on a miss the endpoint's `meals or []` is stored under the
      ingredient and returned. When the endpoint raises, nothing is stored. */
  method FilterByIngredient(cache: Cache, api: Endpoint, ingredient: string, now: int)
    returns (r: Outcome<seq<Payload>>)
    modifies cache
    ensures cache.meals == old(cache.meals)
    ensures old(Read(cache.filters, ingredient, now)).Some? ==>
      r == Done(old(Read(cache.filters, ingredient, now)).value) && cache.filters == old(cache.filters)
    ensures old(Read(cache.filters, ingredient, now)).None? ==>
      r == FilterAnswer(api, ingredient) &&
      cache.filters == (if r.Done? then Write(old(cache.filters), ingredient, r.value, now) else old(cache.filters))
    ensures FiltersAgree(old(cache.filters), api) ==>
      r == FilterAnswer(api, ingredient) && FiltersAgree(cache.filters, api)
  {
    var cached := cache.GetCachedFilter(ingredient, now);
    if cached.Some? {
      return Done(cached.value);
    }
    var data := api(ingredient);
    if data.Raised? {
      return Raised;
    }
    var meals := MealsOf(data.value);
    cache.SetCachedFilter(ingredient, meals, now);
    r := Done(meals);
  }

  /** `lookup_meal`: a cache hit is returned as it is; on a miss the first
      record the endpoint gives is stored and returned, and when it gives
      none the answer is None and nothing is stored. */
  method LookupMeal(cache: Cache, api: Endpoint, mealId: string, now: int)
    returns (r: Outcome<Option<Payload>>)
    modifies cache
    ensures cache.filters == old(cache.filters)
    ensures old(Read(cache.meals, mealId, now)).Some? ==>
      r == Done(old(Read(cache.meals, mealId, now))) && cache.meals == old(cache.meals)
    ensures old(Read(cache.meals, mealId, now)).None? ==>
      r == LookupAnswer(api, mealId) &&
      cache.meals == (if r.Done? && r.value.Some? then Write(old(cache.meals), mealId, r.value.value, now)
                      else old(cache.meals))
    ensures MealsAgree(old(cache.meals), api) ==>
      r == LookupAnswer(api, mealId) && MealsAgree(cache.meals, api)
  {
    var cached := cache.GetCachedMeal(mealId, now);
    if cached.Some? {
      return Done(cached);
    }
    var data := api(mealId);
    if data.Raised? {
      return Raised;
    }
    var meals := MealsOf(data.value);
    if meals != [] {
      cache.SetCachedMeal(mealId, meals[0], now);
      return Done(Some(meals[0]));
    }
    r := Done(None);
  }
}

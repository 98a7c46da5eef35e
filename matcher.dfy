/** The recipe matcher of src/matcher.py: candidate meal ids from the
    ingredient filter, the lookup of every candidate (a thread pool in the
    source, here a loop that takes the pending ids in any order), and the two
    entry points `match_recipes` and `match_recipes_by_ingredient`.
    `filter` and `lookup` stand for `api_themealdb.filter_by_ingredient`
    and `api_themealdb.lookup_meal`; `Raised` is an exception escaping them. */
module Matcher {

  import opened Optional
  import opened Json
  import opened StringOrder
  import opened Normalizer
  import opened MealDb
  import opened Recipes
  import opened Ranking

  type Filter = string -> Outcome<seq<Payload>>
  type Lookup = string -> Outcome<Option<Payload>>

  /** The default `limit_per_ingredient`. */
  const LimitPerIngredient: nat := 20

  /** `meal.get("idMeal")`, with a missing or null id read as "". */
  function MealId(summary: Payload): string
  {
    Field(summary, "idMeal")
  }

  /** `meals[:limit]` */
  function Take(meals: seq<Payload>, limit: nat): (r: seq<Payload>)
    ensures |r| == if |meals| <= limit then |meals| else limit
    ensures r == meals[..|r|]
  {
    if |meals| <= limit then meals else meals[..limit]
  }

  /** The non-empty ids among the summaries. */
  function IdsIn(meals: seq<Payload>): set<string>
  {
    set k | 0 <= k < |meals| && MealId(meals[k]) != "" :: MealId(meals[k])
  }

  lemma IdsInStep(meals: seq<Payload>, j: nat)
    requires j < |meals|
    ensures IdsIn(meals[..j + 1]) == IdsIn(meals[..j]) + (if MealId(meals[j]) != "" then {MealId(meals[j])} else {})
  {
    var a, b := meals[..j + 1], meals[..j];
    forall x | x in IdsIn(a)
      ensures x in IdsIn(b) + (if MealId(meals[j]) != "" then {MealId(meals[j])} else {})
    {
      var k :| 0 <= k < |a| && MealId(a[k]) != "" && MealId(a[k]) == x;
      if k < j { assert a[k] == b[k]; }
    }
    forall x | x in IdsIn(b)
      ensures x in IdsIn(a)
    {
      var k :| 0 <= k < |b| && MealId(b[k]) != "" && MealId(b[k]) == x;
      assert a[k] == b[k];
    }
    if MealId(meals[j]) != "" {
      assert a[j] == meals[j];
    }
  }

  /** `_candidate_meal_ids`: the union over the ingredients, queried in
      order, of the non-empty ids among the first `limit` summaries the
      filter gives; Raised as soon as one filter call raises. */
  function CandidateIds(filter: Filter, ingredients: seq<string>, limit: nat): Outcome<set<string>>
  {
    if ingredients == [] then Done({})
    else
      match CandidateIds(filter, ingredients[..|ingredients| - 1], limit)
      case Raised => Raised
      case Done(ids) =>
        match filter(ingredients[|ingredients| - 1])
        case Raised => Raised
        case Done(meals) => Done(ids + IdsIn(Take(meals, limit)))
  }

  /** The candidate ids fail exactly when some filter call raises, and
      otherwise an id is a candidate exactly when it is a non-empty id among
      the first `limit` summaries for one of the ingredients. */
  lemma {:induction false} CandidateIdsMeaning(filter: Filter, ingredients: seq<string>, limit: nat, id: string)
    ensures CandidateIds(filter, ingredients, limit).Raised? <==>
      exists i :: 0 <= i < |ingredients| && filter(ingredients[i]).Raised?
    ensures CandidateIds(filter, ingredients, limit).Done? ==>
      (id in CandidateIds(filter, ingredients, limit).value <==>
       exists i :: 0 <= i < |ingredients| && filter(ingredients[i]).Done?
                   && id in IdsIn(Take(filter(ingredients[i]).value, limit)))
  {
    if ingredients != [] {
      var n := |ingredients| - 1;
      var init := ingredients[..n];
      CandidateIdsMeaning(filter, init, limit, id);
      assert forall i :: 0 <= i < n ==> init[i] == ingredients[i];
      if CandidateIds(filter, ingredients, limit).Done? {
        if id in CandidateIds(filter, ingredients, limit).value {
          if id !in CandidateIds(filter, init, limit).value {
            assert filter(ingredients[n]).Done? && id in IdsIn(Take(filter(ingredients[n]).value, limit));
          }
        }
      }
    }
  }

  lemma CandidateIdsStep(filter: Filter, ingredients: seq<string>, limit: nat, i: nat)
    requires i < |ingredients|
    requires CandidateIds(filter, ingredients[..i], limit).Done?
    ensures CandidateIds(filter, ingredients[..i + 1], limit) ==
      if filter(ingredients[i]).Raised? then Raised
      else Done(CandidateIds(filter, ingredients[..i], limit).value + IdsIn(Take(filter(ingredients[i]).value, limit)))
  {
    assert ingredients[..i + 1][..i] == ingredients[..i];
    assert ingredients[..i + 1][i] == ingredients[i];
  }

  /** The loops of `_candidate_meal_ids`. */
  method CandidateMealIds(filter: Filter, ingredients: seq<string>, limit: nat) returns (r: Outcome<set<string>>)
    ensures r == CandidateIds(filter, ingredients, limit)
  {
    var mealIds: set<string> := {};
    for i := 0 to |ingredients|
      invariant CandidateIds(filter, ingredients[..i], limit) == Done(mealIds)
    {
      CandidateIdsStep(filter, ingredients, limit, i);
      var answer := filter(ingredients[i]);
      if answer.Raised? {
        CandidateIdsRaisedGrows(filter, ingredients, limit, i + 1);
        return Raised;
      }
      var meals := Take(answer.value, limit);
      ghost var before := mealIds;
      for j := 0 to |meals|
        invariant mealIds == before + IdsIn(meals[..j])
      {
        IdsInStep(meals, j);
        var mealId := MealId(meals[j]);
        if mealId != "" {
          mealIds := mealIds + {mealId};
        }
      }
      assert meals[..|meals|] == meals;
    }
    assert ingredients[..|ingredients|] == ingredients;
    r := Done(mealIds);
  }

  /** Once a prefix of the ingredients raises, every longer prefix does. */
  lemma {:induction false} CandidateIdsRaisedGrows(filter: Filter, ingredients: seq<string>, limit: nat, i: nat)
    requires i <= |ingredients|
    requires CandidateIds(filter, ingredients[..i], limit) == Raised
    ensures CandidateIds(filter, ingredients, limit) == Raised
    decreases |ingredients| - i
  {
    if i < |ingredients| {
      assert ingredients[..i + 1][..i] == ingredients[..i];
      CandidateIdsRaisedGrows(filter, ingredients, limit, i + 1);
    } else {
      assert ingredients[..i] == ingredients;
    }
  }

  /** How the loop bodies judge one candidate id: the match its lookup
      gives, or None when it is skipped. */
  type Judge = string -> Option<RecipeMatch>

  function JudgeOf(lookup: Lookup, inventory: set<string>): Judge
  {
    id => Assess(id, lookup(id), inventory)
  }

  /** Every match a judge gives is about the id it was asked for. */
  ghost predicate KeepsIds(judge: Judge)
  {
    forall id :: judge(id).Some? ==> judge(id).value.id == id
  }

  lemma JudgeOfKeepsIds(lookup: Lookup, inventory: set<string>)
    ensures KeepsIds(JudgeOf(lookup, inventory))
  {
    forall id | JudgeOf(lookup, inventory)(id).Some?
      ensures JudgeOf(lookup, inventory)(id).value.id == id
    {
      AssessFacts(id, lookup(id), inventory);
    }
  }

  /** The judged id gives a match with at most `maxMissing` missing
      ingredients: the loop body of `_match_themealdb` appends it. */
  predicate Kept(judge: Judge, id: string, maxMissing: int)
  {
    judge(id).Some? && |judge(id).value.missing| <= maxMissing
  }

  /** The matches `_match_themealdb` collects for the ids, as a set. */
  function KeptMatches(judge: Judge, ids: set<string>, maxMissing: int): set<RecipeMatch>
  {
    set id | id in ids && Kept(judge, id, maxMissing) :: judge(id).value
  }

  /** A kept match is the match of one of the ids and misses at most
      `maxMissing` ingredients. */
  lemma KeptMatchesMeaning(judge: Judge, ids: set<string>, maxMissing: int, m: RecipeMatch)
    requires KeepsIds(judge)
    ensures m in KeptMatches(judge, ids, maxMissing) <==>
      m.id in ids && judge(m.id) == Some(m) && |m.missing| <= maxMissing
  {
    if m in KeptMatches(judge, ids, maxMissing) {
      var id :| id in ids && Kept(judge, id, maxMissing) && judge(id).value == m;
    }
  }

  /** What a kept match of `_match_themealdb` is: the match of a candidate
      whose record was found and is not a dessert, missing at most
      `maxMissing` ingredients, none of them in the inventory or a pantry
      staple. */
  lemma KeptMatchFacts(lookup: Lookup, ids: set<string>, inventory: set<string>, maxMissing: int, m: RecipeMatch)
    requires m in KeptMatches(JudgeOf(lookup, inventory), ids, maxMissing)
    ensures m.id in ids && |m.missing| <= maxMissing
    ensures lookup(m.id).Done? && lookup(m.id).value.Some?
    ensures Category(lookup(m.id).value.value) != "dessert"
    ensures m == BuildMatch(m.id, lookup(m.id).value.value, inventory)
    ensures forall x :: x in m.missing ==> x in m.ingredients && x !in inventory && x !in IgnoreSpices
  {
    JudgeOfKeepsIds(lookup, inventory);
    KeptMatchesMeaning(JudgeOf(lookup, inventory), ids, maxMissing, m);
    AssessFacts(m.id, lookup(m.id), inventory);
  }

  /** A lookup that raised or found nothing only drops its own id. */
  lemma FailedLookupOnlyDropsId(lookup: Lookup, ids: set<string>, inventory: set<string>, maxMissing: int, bad: string)
    requires lookup(bad).Raised? || lookup(bad) == Done(None)
    ensures KeptMatches(JudgeOf(lookup, inventory), ids, maxMissing) ==
            KeptMatches(JudgeOf(lookup, inventory), ids - {bad}, maxMissing)
  {
    assert JudgeOf(lookup, inventory)(bad) == None;
  }

  /** Taking one more id adds at most its own match, which is new. */
  lemma KeptMatchesStep(judge: Judge, done: set<string>, id: string, maxMissing: int)
    requires KeepsIds(judge)
    requires id !in done
    ensures KeptMatches(judge, done + {id}, maxMissing) ==
      KeptMatches(judge, done, maxMissing) + (if Kept(judge, id, maxMissing) then {judge(id).value} else {})
    ensures Kept(judge, id, maxMissing) ==> judge(id).value !in KeptMatches(judge, done, maxMissing)
  {
    if Kept(judge, id, maxMissing) {
      var m := judge(id).value;
    }
  }

  lemma MultisetOfSetAdd(s: set<RecipeMatch>, m: RecipeMatch)
    requires m !in s
    ensures multiset(s + {m}) == multiset(s) + multiset{m}
  {
  }

  /** One iteration of the pool loop keeps its invariant: the results hold
      each kept match of the ids taken so far exactly once. */
  lemma PoolStep(judge: Judge, done: set<string>, id: string, maxMissing: int,
                 before: seq<RecipeMatch>, after: seq<RecipeMatch>)
    requires KeepsIds(judge) && id !in done
    requires multiset(before) == multiset(KeptMatches(judge, done, maxMissing))
    requires after == before + (if Kept(judge, id, maxMissing) then [judge(id).value] else [])
    ensures multiset(after) == multiset(KeptMatches(judge, done + {id}, maxMissing))
  {
    KeptMatchesStep(judge, done, id, maxMissing);
    if Kept(judge, id, maxMissing) {
      MultisetOfSetAdd(KeptMatches(judge, done, maxMissing), judge(id).value);
    }
  }

  /** The skip branches of the loop bodies judge an id as None. */
  lemma JudgeSkips(lookup: Lookup, inventory: set<string>, id: string)
    requires lookup(id).Raised? || lookup(id).value.None? || lookup(id).value.value == map[]
             || Category(lookup(id).value.value) in ExcludeCategories
    ensures JudgeOf(lookup, inventory)(id) == None
  {
  }

  /** The appending branch of the loop bodies judges an id as its match. */
  lemma JudgeBuilds(lookup: Lookup, inventory: set<string>, id: string, meal: Payload)
    requires lookup(id) == Done(Some(meal)) && meal != map[] && Category(meal) !in ExcludeCategories
    ensures JudgeOf(lookup, inventory)(id) == Some(BuildMatch(id, meal, inventory))
  {
  }

  /** The thread-pool block of `_match_themealdb`: one lookup per candidate,
      taken in whatever order they complete; whatever the order, the results
      hold each kept match exactly once. */
  method LookUpCandidates(lookup: Lookup, inventorySet: set<string>, candidateIds: set<string>, maxMissing: int)
    returns (results: seq<RecipeMatch>)
    ensures multiset(results) == multiset(KeptMatches(JudgeOf(lookup, inventorySet), candidateIds, maxMissing))
  {
    ghost var judge := JudgeOf(lookup, inventorySet);
    JudgeOfKeepsIds(lookup, inventorySet);
    results := [];
    var pending := candidateIds;
    while pending != {}
      invariant pending <= candidateIds
      invariant multiset(results) == multiset(KeptMatches(judge, candidateIds - pending, maxMissing))
      decreases |pending|
    {
      var mealId :| mealId in pending;
      ghost var done, before := candidateIds - pending, results;
      assert candidateIds - (pending - {mealId}) == done + {mealId};
      pending := pending - {mealId};
      var found := lookup(mealId);
      if found.Raised? || found.value.None? || found.value.value == map[] {
        JudgeSkips(lookup, inventorySet, mealId);
        PoolStep(judge, done, mealId, maxMissing, before, results);
        continue;
      }
      var meal := found.value.value;
      var category := Category(meal);
      if category in ExcludeCategories {
        JudgeSkips(lookup, inventorySet, mealId);
        PoolStep(judge, done, mealId, maxMissing, before, results);
        continue;
      }
      var rawIngredients := ParseIngredients(meal);
      var ingredients := NormalizeList(rawIngredients);
      var missing := Missing(ingredients, inventorySet);
      JudgeBuilds(lookup, inventorySet, mealId, meal);
      if |missing| <= maxMissing {
        results := results + [RecipeMatch(mealId, MealName(meal), Thumbnail(meal), ingredients, missing,
                                          SourceMealDb, DetailsUrl(mealId))];
      }
      PoolStep(judge, done, mealId, maxMissing, before, results);
    }
    assert candidateIds - pending == candidateIds;
  }

  /** `_match_themealdb`: Raised when a filter call raises, and otherwise each
      kept match of the candidate ids exactly once, in some order. The
      candidates are sorted before they are submitted in the source; the
      order of submission does not matter here, as every completion order
      is allowed. */
  method MatchTheMealDb(filter: Filter, lookup: Lookup, inventory: seq<string>, inventorySet: set<string>, maxMissing: int)
    returns (r: Outcome<seq<RecipeMatch>>)
    ensures CandidateIds(filter, inventory, LimitPerIngredient).Raised? ==> r == Raised
    ensures CandidateIds(filter, inventory, LimitPerIngredient).Done? ==>
      r.Done? &&
      multiset(r.value) == multiset(KeptMatches(JudgeOf(lookup, inventorySet),
                                                CandidateIds(filter, inventory, LimitPerIngredient).value, maxMissing))
  {
    var candidates := CandidateMealIds(filter, inventory, LimitPerIngredient);
    if candidates.Raised? {
      return Raised;
    }
    var candidateIds := candidates.value;
    var results: seq<RecipeMatch> := [];
    if candidateIds == {} {
      return Done(results);
    }
    results := LookUpCandidates(lookup, inventorySet, candidateIds, maxMissing);
    r := Done(results);
  }

  /** `set(sources) if sources else {SOURCE_MEALDB}`, for a list of sources. */
  function SelectedSources(sources: Option<seq<string>>): set<string>
  {
    if sources.None? || sources.value == [] then {SourceMealDb} else Elems(sources.value)
  }

  /** `match_recipes`. An inventory that normalises to nothing, or a source
      selection without TheMealDB, gives no matches and asks nothing; otherwise
      the result fails exactly when a filter call raises, and is the kept
      matches sorted by (missing count, lower-cased name, source). */
  method MatchRecipes(filter: Filter, lookup: Lookup, inventory: seq<string>, maxMissing: int, sources: Option<seq<string>>)
    returns (r: Outcome<seq<RecipeMatch>>)
    ensures NormalizeList(inventory) == [] ==> r == Done([])
    ensures SourceMealDb !in SelectedSources(sources) ==> r == Done([])
    ensures NormalizeList(inventory) != [] && SourceMealDb in SelectedSources(sources) ==>
      var candidates := CandidateIds(filter, NormalizeList(inventory), LimitPerIngredient);
      && (r.Raised? <==> candidates.Raised?)
      && (r.Done? ==>
            SortedBy(ByMissingThenName, r.value)
            && multiset(r.value) == multiset(KeptMatches(JudgeOf(lookup, Elems(NormalizeList(inventory))),
                                                         candidates.value, maxMissing)))
  {
    var normalizedInventory := NormalizeList(inventory);
    if normalizedInventory == [] {
      return Done([]);
    }
    var inventorySet := Elems(normalizedInventory);
    var selected := if sources.None? || sources.value == [] then {SourceMealDb} else Elems(sources.value);
    var results: seq<RecipeMatch> := [];
    if SourceMealDb in selected {
      var found := MatchTheMealDb(filter, lookup, normalizedInventory, inventorySet, maxMissing);
      if found.Raised? {
        return Raised;
      }
      results := results + found.value;
    }
    results := SortMatches(ByMissingThenName, results);
    r := Done(results);
  }

  /** `meal.get("idMeal")` for every summary, empty ids included. */
  function MealIds(meals: seq<Payload>): seq<string>
  {
    seq(|meals|, k requires 0 <= k < |meals| => MealId(meals[k]))
  }

  /** `[meal.get("idMeal") for meal in meals if meal.get("idMeal")]`: every
      non-empty id, as often as it occurs, and in summary order. */
  function IdList(meals: seq<Payload>): (r: seq<string>)
    ensures forall k :: 0 <= k < |r| ==> r[k] != ""
    ensures forall x :: x != "" ==> multiset(r)[x] == multiset(MealIds(meals))[x]
    ensures (forall k :: 0 <= k < |meals| ==> MealId(meals[k]) != "") ==> r == MealIds(meals)
  {
    if meals == [] then []
    else
      var head := if MealId(meals[0]) != "" then [MealId(meals[0])] else [];
      var rest := IdList(meals[1..]);
      MealIdsCons(meals);
      assert multiset(head + rest) == multiset(head) + multiset(rest);
      head + rest
  }

  lemma MealIdsCons(meals: seq<Payload>)
    requires meals != []
    ensures MealIds(meals) == [MealId(meals[0])] + MealIds(meals[1..])
    ensures multiset(MealIds(meals)) == multiset{MealId(meals[0])} + multiset(MealIds(meals[1..]))
  {
    assert MealIds(meals) == [MealId(meals[0])] + MealIds(meals[1..]);
  }

  /** No lookup of the ids raises. */
  predicate AllAnswered(lookup: Lookup, ids: seq<string>)
  {
    forall k :: 0 <= k < |ids| ==> !lookup(ids[k]).Raised?
  }

  /** The matches the loop of `match_recipes_by_ingredient` appends: one per
      id the judge keeps, in id order. */
  function Found(judge: Judge, ids: seq<string>): seq<RecipeMatch>
  {
    if ids == [] then []
    else
      var n := |ids| - 1;
      Found(judge, ids[..n]) + (if judge(ids[n]).Some? then [judge(ids[n]).value] else [])
  }

  lemma FoundStep(judge: Judge, ids: seq<string>, i: nat)
    requires i < |ids|
    ensures Found(judge, ids[..i + 1]) ==
      Found(judge, ids[..i]) + (if judge(ids[i]).Some? then [judge(ids[i]).value] else [])
  {
    assert ids[..i + 1][..i] == ids[..i];
    assert ids[..i + 1][i] == ids[i];
  }

  /** A match is found exactly when it is the match of one of the ids. */
  lemma {:induction false} FoundMeaning(judge: Judge, ids: seq<string>, m: RecipeMatch)
    ensures m in Found(judge, ids) <==> exists k :: 0 <= k < |ids| && judge(ids[k]) == Some(m)
  {
    if ids != [] {
      var n := |ids| - 1;
      FoundMeaning(judge, ids[..n], m);
      assert forall k :: 0 <= k < n ==> ids[..n][k] == ids[k];
    }
  }

  /** No count filter and no de-duplication: when the judge keeps every id,
      there is one match per id, repeated ids included. */
  lemma {:induction false} FoundKeepsEveryId(judge: Judge, ids: seq<string>)
    requires forall k :: 0 <= k < |ids| ==> judge(ids[k]).Some?
    ensures |Found(judge, ids)| == |ids|
    ensures forall k :: 0 <= k < |ids| ==> Found(judge, ids)[k] == judge(ids[k]).value
  {
    if ids != [] {
      var n := |ids| - 1;
      assert forall k :: 0 <= k < n ==> ids[..n][k] == ids[k];
      FoundKeepsEveryId(judge, ids[..n]);
    }
  }

  /** What `match_recipes_by_ingredient` returns. */
  function ByIngredient(filter: Filter, lookup: Lookup, required: string, inventory: seq<string>): Outcome<seq<RecipeMatch>>
  {
    var req := NormalizeItem(required);
    if req == "" then Done([])
    else if filter(req).Raised? then Raised
    else
      var ids := IdList(filter(req).value);
      if !AllAnswered(lookup, ids) then Raised
      else Done(SortMatches(ByName, Found(JudgeOf(lookup, Elems(NormalizeList(inventory))), ids)))
  }

  /** The loop of `match_recipes_by_ingredient` over the candidate ids, in
      order: Raised as soon as one lookup raises, and otherwise one match per
      id whose record is found and is not a dessert. */
  method CollectMatches(lookup: Lookup, inventorySet: set<string>, candidateIds: seq<string>)
    returns (r: Outcome<seq<RecipeMatch>>)
    ensures r == if AllAnswered(lookup, candidateIds)
                 then Done(Found(JudgeOf(lookup, inventorySet), candidateIds)) else Raised
  {
    ghost var judge := JudgeOf(lookup, inventorySet);
    var results: seq<RecipeMatch> := [];
    for i := 0 to |candidateIds|
      invariant AllAnswered(lookup, candidateIds[..i])
      invariant results == Found(judge, candidateIds[..i])
    {
      FoundStep(judge, candidateIds, i);
      assert candidateIds[..i + 1] == candidateIds[..i] + [candidateIds[i]];
      var mealId := candidateIds[i];
      var found := lookup(mealId);
      if found.Raised? {
        assert !AllAnswered(lookup, candidateIds);
        return Raised;
      }
      if found.value.None? || found.value.value == map[] {
        JudgeSkips(lookup, inventorySet, mealId);
        continue;
      }
      var meal := found.value.value;
      var category := Category(meal);
      if category in ExcludeCategories {
        JudgeSkips(lookup, inventorySet, mealId);
        continue;
      }
      var rawIngredients := ParseIngredients(meal);
      var ingredients := NormalizeList(rawIngredients);
      var missing := Missing(ingredients, inventorySet);
      JudgeBuilds(lookup, inventorySet, mealId, meal);
      results := results + [RecipeMatch(mealId, MealName(meal), Thumbnail(meal), ingredients, missing,
                                        SourceMealDb, DetailsUrl(mealId))];
    }
    assert candidateIds[..|candidateIds|] == candidateIds;
    r := Done(results);
  }

  /** `match_recipes_by_ingredient`: nothing for an ingredient that
      normalises to ""; otherwise one match per found, non-dessert candidate
      of the filter for the normalised ingredient, sorted by (lower-cased
      name, source); Raised when the filter or any lookup raises. */
  method MatchRecipesByIngredient(filter: Filter, lookup: Lookup, required: string, inventory: seq<string>)
    returns (r: Outcome<seq<RecipeMatch>>)
    ensures r == ByIngredient(filter, lookup, required, inventory)
  {
    var normalizedRequired := NormalizeItem(required);
    if normalizedRequired == "" {
      return Done([]);
    }
    var normalizedInventory := NormalizeList(inventory);
    var inventorySet := Elems(normalizedInventory);
    var meals := filter(normalizedRequired);
    if meals.Raised? {
      return Raised;
    }
    var candidateIds := IdList(meals.value);
    var results := CollectMatches(lookup, inventorySet, candidateIds);
    if results.Raised? {
      return Raised;
    }
    r := Done(SortMatches(ByName, results.value));
  }

  /** The properties of `match_recipes_by_ingredient` in one place: an empty
      normalised ingredient gives []; a successful result is sorted by
      (lower-cased name, source) and a rearrangement of the found matches. */
  lemma ByIngredientMeaning(filter: Filter, lookup: Lookup, required: string, inventory: seq<string>)
    ensures NormalizeItem(required) == "" ==> ByIngredient(filter, lookup, required, inventory) == Done([])
    ensures var r := ByIngredient(filter, lookup, required, inventory);
      r.Done? && NormalizeItem(required) != "" ==>
        && filter(NormalizeItem(required)).Done?
        && AllAnswered(lookup, IdList(filter(NormalizeItem(required)).value))
        && SortedBy(ByName, r.value)
        && multiset(r.value) == multiset(Found(JudgeOf(lookup, Elems(NormalizeList(inventory))),
                                               IdList(filter(NormalizeItem(required)).value)))
  {
  }
}

# Shopping list — recipe matching core in Dafny

This project models the recipe-matching core of the shopping-list app. It
covers four things:

- the ingredient normaliser of `src/matcher.py`;
- the threshold search `match_recipes` and the single-ingredient search
  `match_recipes_by_ingredient`, over TheMealDB;
- the cache-then-fetch wrapper of `src/api_themealdb.py` and the SQLite
  cache of `src/cache_db.py`, which has a seven-day expiry;
- the JSON-backed inventory and shopping-cart lists of `src/inventory.py`
  and `src/cart.py`.

The modules follow the program:

| module | file | models |
|---|---|---|
| `Optional`, `Json` | optional.dfy, json.dfy | `None`, exceptions (`Outcome.Raised`), JSON records as maps of string-or-null values |
| `Text` | text.dfy | `str.lower`, `str.strip`, `str.split()`, `" ".join` on ASCII text |
| `StringOrder` | order.dfy | Python's string `<`, `sorted(set(...))`, list filtering |
| `Normalizer` | normalizer.dfy | `_MEASURE_WORDS`, `_SINGULAR_OVERRIDES`, `_IGNORE_SPICES`, `_EXCLUDE_CATEGORIES`, `_singularize`, `_normalize_ingredient`, `_normalize_list`, `normalize_item` |
| `CacheDb` | cache_db.dfy | `class Cache`: the `meals` and `ingredient_map` tables, with the clock as a parameter `now` |
| `MealDb` | mealdb.dfy | `_freeze_params`, `parse_ingredients`, `filter_by_ingredient`, `lookup_meal` over a `Cache` and an abstract HTTP endpoint |
| `Recipes` | recipes.dfy | `RecipeMatch`, `SOURCE_MEALDB`, and how one looked-up record becomes a match |
| `Ranking` | ranking.dfy | the two `results.sort(key=...)` orders |
| `Matcher` | matcher.dfy | `_candidate_meal_ids`, `_match_themealdb`, `match_recipes`, `match_recipes_by_ingredient` |
| `Listing`, `Inventory`, `Cart` | listing.dfy, inventory.dfy, cart.dfy | the shared clean-up of stored lists; `class Fridge` and `class ShoppingCart` over their JSON file |

Exceptions are modelled, not dropped. A filter or lookup call returns
`Outcome.Raised` when it raises. `_match_themealdb` swallows a raised
lookup (`except Exception: continue`). `match_recipes_by_ingredient`
has no `try`, so a raised lookup there fails the whole call. A raised
filter call fails both searches.

The thread pool of `_match_themealdb` is a loop that takes any pending id
next, so every completion order is covered. Its result is stated as a
multiset: the kept matches, each exactly once, in some order. The final
sort then orders them.

Four behaviours of the code are easy to expect otherwise. The model
states what the code does:

- **Normalisation is not idempotent.** One would expect normalising a
  normal form to change nothing. It can change:
  `_normalize_ingredient("pinches")` is `"pinch"`, and `"pinch"` is a
  measure word, so normalising again gives `""`
  (`Normalizer.NormalizeNotIdempotent`). Likewise `"123s"` is `"123"`,
  which is all digits, so normalising again gives `""`
  (`Normalizer.NormalizeNumberNotIdempotent`). The model proves the weaker
  `Normalizer.NormalizeStable`: a normal form is a fixed point when no
  kept token is all digits or a measure word.
- **Failed lookups do not always skip.** A failed detail fetch is skipped
  in `match_recipes`. In `match_recipes_by_ingredient` it aborts the query.
- **Names sort without case.** Both sorts compare `name.lower()`, not the
  name as given.
- **Equal keys can swap.** The final order is not fully determined. Two
  matches whose whole sort key is equal keep the thread pool's completion
  order.

There is one exception to following the code. In the code a search
raises when a record whose `strMeal` is JSON null reaches the sorted
list: the record was found, it is not a dessert, and, in
`match_recipes`, it misses at most `max_missing` ingredients. The model builds
every match with the corrected name `Recipes.MealName` instead (see
"## Findings" and "## Left out").

## Model

| member | source | states |
|---|---|---|
| Text.LowerIdempotent | src/matcher.py:86 | lower-casing twice is lower-casing once |
| Text.StripShape | src/matcher.py:93 | `strip()` leaves no whitespace at either end and is empty exactly when the text is blank |
| Text.LowerStripIsClean | src/api_themealdb.py:61 | `.strip().lower()` is already stripped and lower-case, and is empty exactly when the text is blank |
| Text.SplitJoin | src/matcher.py:87-89 | splitting the space-joined words gives back the same words |
| Text.JoinCanonical | src/matcher.py:89 | joining tokens gives token characters separated by single spaces, with none at either end |
| StringOrder.LessTotal | src/matcher.py:94 | any two different strings are ordered one way or the other |
| StringOrder.LessTransitive | src/matcher.py:94 | the string order is transitive |
| StringOrder.SortedSet | src/matcher.py:94 | `sorted(set(s))` is strictly increasing and has exactly the elements of `s` |
| StringOrder.SortedUnique | src/matcher.py:94 | two strictly increasing lists with the same elements are equal, so the sorted set depends only on the set |
| StringOrder.Without | src/inventory.py:39 | the filtered list has the elements of the list minus the key and stays sorted |
| Normalizer.Singularize | src/matcher.py:73-82 | the result is at most two characters shorter, tokens of up to three characters are unchanged, and only the last kept character may become `y` |
| Normalizer.SingularizeWith | src/matcher.py:73-82 | `_singularize` with its override table as a parameter: an overridden token maps to its override; otherwise the suffix rules apply, `ies` before `es` before `s`; `Normalizer.Singularize` proves what they promise for the empty table |
| Normalizer.SingularizeToken | src/matcher.py:73-82 | the singular of a token is a token |
| Normalizer.SingularizeIdempotent | src/matcher.py:73-82 | singularising twice is singularising once |
| Normalizer.DropNumbers | src/matcher.py:87 | every kept token is a non-empty, not all-digit token of the input; every such input token is kept |
| Normalizer.Unpunctuate | src/matcher.py:86 | `re.sub(r"[^\w\s]", " ", ...)` keeps the length, leaves only word characters and whitespace, keeps every word or whitespace character where it was, and replaces every other character with a space |
| Normalizer.RawTokens | src/matcher.py:86-87 | the whitespace-separated pieces of the lower-cased text with punctuation replaced by spaces; `RawTokensAreTokens` states what they are made of |
| Normalizer.SingularizeKept | src/matcher.py:88 | every token that is not a measure word, singularised, in order; `SingularizeKeptTokens` and `SingularizeKeptKeepsFixed` state its properties |
| Normalizer.KeptTokens | src/matcher.py:86-88 | the tokens that survive the digit and measure-word filters, singularised; they are the words of the normal form by `NormalizeIngredientShape` |
| Normalizer.RawTokensAreTokens | src/matcher.py:86-87 | after lower-casing and replacing punctuation, every token is made of lower-case letters, digits and `_` |
| Normalizer.NormalizeIngredient | src/matcher.py:85-89 | `_normalize_ingredient`: the kept, singularised tokens joined by single spaces and stripped; the lemmas `NormalizeIngredientShape`, `NormalizeStable` and `NormalizeNotIdempotent` state its properties |
| Normalizer.NormalizeIngredientShape | src/matcher.py:85-89 | the normal form is canonical text whose words are exactly the kept, singularised tokens |
| Normalizer.BlankNormalizesEmpty | src/matcher.py:85-89 | blank text normalises to `""` |
| Normalizer.NormalizeList | src/matcher.py:92-94 | the result is strictly sorted, has no `""`, and holds exactly the non-empty normal forms of the items |
| Normalizer.NormalizeListOrderFree | src/matcher.py:92-94 | lists with the same items, in any order and with any repeats, normalise to the same list |
| Normalizer.NormalizeItem | src/matcher.py:97-99 | `normalize_item` equals the normal form of the one text |
| Normalizer.NormalizeStable | src/matcher.py:85-89 | normalising the normal form again changes nothing when no kept token is all digits or a measure word |
| Normalizer.NormalizeNotIdempotent | src/matcher.py:85-89 | `"pinches"` normalises to `"pinch"`, which normalises to `""` |
| Normalizer.NormalizeNumberNotIdempotent | src/matcher.py:85-89 | `"123s"` normalises to `"123"`, which normalises to `""` |
| CacheDb.Read | src/cache_db.py:41-52 | a missing row gives None; a row older than the expiry gives None; any other row gives its payload |
| CacheDb.Write | src/cache_db.py:55-61 | insert-or-replace sets the row to the payload and the current time and keeps every other row |
| CacheDb.ReadAfterWrite | src/cache_db.py:50-60 | a written payload is read back until the expiry has passed, and not after |
| CacheDb.ExpiryIsStrict | src/cache_db.py:50 | a row exactly at the expiry is still served |
| CacheDb.WriteKeepsOtherKeys | src/cache_db.py:86-92 | a write changes no read of another key |
| CacheDb.WriteRefreshes | src/cache_db.py:74-91 | rewriting an expired row makes it served again |
| CacheDb.Cache.GetCachedMeal | src/cache_db.py:41-52 | reads the meals table with the expiry rule |
| CacheDb.Cache.SetCachedMeal | src/cache_db.py:55-61 | writes the meals table and leaves the ingredient table as it was |
| CacheDb.Cache.GetCachedFilter | src/cache_db.py:64-76 | reads the ingredient table with the expiry rule |
| CacheDb.Cache.SetCachedFilter | src/cache_db.py:86-92 | writes the ingredient table and leaves the meals table as it was |
| CacheDb.Cache.ClearCache | src/cache_db.py:79-83 | both tables are empty and every later read misses |
| MealDb.InsertByKey | src/api_themealdb.py:20 | inserting a pair with a new key keeps the pairs sorted by key and adds exactly that pair |
| MealDb.SortByKey | src/api_themealdb.py:20 | `sorted(params.items())` is sorted by key and a rearrangement of the pairs |
| MealDb.FreezeParams | src/api_themealdb.py:17-20 | no parameters or empty parameters freeze to `()`; otherwise to the pairs sorted by key |
| MealDb.KeySortedUnique | src/api_themealdb.py:20 | two key-sorted rearrangements of the same pairs are equal |
| MealDb.FreezeParamsOrderFree | src/api_themealdb.py:17-20 | dictionaries with the same items freeze to the same tuple, whatever their insertion order, so they share one cache entry |
| MealDb.SlotsUpTo | src/api_themealdb.py:57-64 | the cleaned non-empty values of the slots `strIngredient1` to `strIngredientn`, in slot order; `SlotsUpToClean` and `SlotsUpToMembership` state its properties |
| MealDb.SlotsUpToClean | src/api_themealdb.py:57-64 | at most one entry per slot; every entry is non-empty, stripped and lower-case |
| MealDb.SlotsUpToMembership | src/api_themealdb.py:57-64 | a value is parsed exactly when it is the non-empty cleaned content of one of the slots |
| MealDb.BlankSlotSkipped | src/api_themealdb.py:61-63 | a blank or missing slot adds nothing |
| MealDb.ParseIngredients | src/api_themealdb.py:57-64 | the loop over `strIngredient1` to `strIngredient20` returns the parsed slots, in slot order |
| MealDb.MealsOf | src/api_themealdb.py:40 | `data.get("meals") or []`: a null or missing `meals` field reads as no records |
| MealDb.FilterAnswer | src/api_themealdb.py:39-40 | what a filter call answers on a cache miss: the records of the reply, or Raised when the request raises; `FilterByIngredient` returns it whenever the cache agrees with the endpoint |
| MealDb.LookupAnswer | src/api_themealdb.py:49-54 | what a lookup answers on a cache miss: the first record of the reply, None when there is none, or Raised; `LookupMeal` returns it whenever the cache agrees with the endpoint |
| MealDb.FilterByIngredient | src/api_themealdb.py:35-42 | a fresh cache row is returned without a call; otherwise the endpoint's `meals or []` is cached and returned; a raise leaves the cache as it was; a cache that agrees with the endpoint gives the endpoint's answer and still agrees afterwards |
| MealDb.LookupMeal | src/api_themealdb.py:45-54 | a fresh cache row is returned without a call; otherwise the first record is cached and returned, or None when there is none; the agreement is kept the same way |
| Recipes.Missing | src/matcher.py:138 | an ingredient is missing exactly when it is in neither the inventory nor the pantry staples; order is kept and the list is no longer |
| Recipes.Category | src/matcher.py:133 | `(meal.get("strCategory") or "").strip().lower()`: a missing or null category reads as `""` |
| Recipes.Thumbnail | src/matcher.py:144 | `meal.get("strMealThumb", "")`: the stored value, null included, and `""` only when the key is absent |
| Recipes.DetailsUrl | src/matcher.py:148 | the TheMealDB page of the meal: `https://www.themealdb.com/meal/` followed by the id |
| Recipes.MealIngredients | src/matcher.py:136-137 | `_normalize_list(parse_ingredients(meal))` over the 20 ingredient slots; `AssessFacts` states that it is sorted, distinct and holds exactly the non-empty normal forms of the slots |
| Recipes.BuildMatch | src/matcher.py:140-149 | the match of a kept record: its id, name, thumbnail, normalised ingredients, missing ingredients, source `TheMealDB` and details URL; `AssessFacts` states its properties |
| Recipes.Assess | src/matcher.py:127-139 | one lookup judged: a raised lookup, None, an empty record or a dessert gives no match; any other record gives its built match; `AssessFacts` states its properties |
| Recipes.AssessFacts | src/matcher.py:127-149 | a built match comes from a found, non-dessert record, carries its own id, source and URL, has the sorted distinct normal forms of the ingredient slots, and lists the missing ones |
| Recipes.NullNameBreaksSort | src/matcher.py:143 | a JSON-null `strMeal` makes the sort key raise, while the corrected name is "Unknown"; on every other record the two agree |
| Recipes.NullNameExample | src/matcher.py:197 | a concrete record whose name is null breaks the sort |
| Recipes.NameAsWritten | src/matcher.py:143 | `meal.get("strMeal", "Unknown")` as written: the stored value, JSON null included, and "Unknown" only when the key is absent; `NullNameBreaksSort` contrasts it with `MealName` |
| Recipes.SortNameAsWritten | src/matcher.py:168 | `r.name.lower()` in the sort key as written: raises on a null name; `NullNameBreaksSort` and `NullNameExample` state when |
| Recipes.MealName | src/matcher.py:143 | the corrected name agrees with the name as written whenever that is a string, and is "Unknown" where the name as written is null |
| Ranking.KeyLessTotal | src/matcher.py:168 | the sort key order relates any two different keys |
| Ranking.KeyLessTransitive | src/matcher.py:168 | the sort key order is transitive |
| Ranking.Key | src/matcher.py:168 | the sort key: (missing count, lower-cased name, source) for `match_recipes`, and (lower-cased name, source) for the sort at src/matcher.py:206, written with a constant 0 first |
| Ranking.InsertMatch | src/matcher.py:168 | inserting into a sorted list keeps it sorted and adds exactly that match |
| Ranking.SortMatches | src/matcher.py:206 | the sorted list is ordered by the key and is a rearrangement of the input |
| Matcher.Take | src/matcher.py:106 | `meals[:limit]` is the prefix of length `limit`, or all the records when there are no more than `limit` |
| Matcher.MealId | src/matcher.py:107 | `meal.get("idMeal")`, with a missing or null id read as `""`, so `if meal_id` keeps exactly the non-empty ids |
| Matcher.IdsIn | src/matcher.py:106-109 | the set of non-empty ids among the records; `IdsInStep` states how one more record extends it |
| Matcher.IdsInStep | src/matcher.py:106-109 | one more record adds its id exactly when the id is non-empty |
| Matcher.CandidateIds | src/matcher.py:102-110 | `_candidate_meal_ids` as a function of the filter answers: the union of the non-empty ids of the first `limit` records per ingredient, or Raised when a filter call raises; `CandidateIdsMeaning` states its meaning |
| Matcher.CandidateIdsMeaning | src/matcher.py:102-110 | the search raises exactly when some filter call raises; otherwise an id is a candidate exactly when it is the non-empty id of one of the first 20 records for some ingredient |
| Matcher.CandidateIdsRaisedGrows | src/matcher.py:104-105 | once a filter call has raised, the whole search raises |
| Matcher.CandidateMealIds | src/matcher.py:102-110 | the nested loops compute the candidate ids, or Raised |
| Matcher.JudgeOf | src/matcher.py:127-149 | the loop body judging one candidate: the `Recipes.Assess` verdict on its lookup; the same judge serves src/matcher.py:185-204; `JudgeOfKeepsIds`, `JudgeSkips` and `JudgeBuilds` state its properties |
| Matcher.JudgeOfKeepsIds | src/matcher.py:142 | every match is built with the id it was looked up by |
| Matcher.KeptMatches | src/matcher.py:120-151 | the set of matches `_match_themealdb` collects: the judged match of every candidate whose missing list has at most `max_missing` entries; `KeptMatchesMeaning` and `KeptMatchFacts` state its meaning |
| Matcher.KeptMatchesMeaning | src/matcher.py:139-150 | a match is kept exactly when its id is a candidate, its record is found and is not a dessert, and it misses at most `max_missing` ingredients |
| Matcher.KeptMatchFacts | src/matcher.py:127-149 | a kept match is the match built from its found, non-dessert record, within the threshold |
| Matcher.FailedLookupOnlyDropsId | src/matcher.py:127-132 | a lookup that raises or finds nothing drops that one id and leaves every other result as it was |
| Matcher.KeptMatchesStep | src/matcher.py:125-150 | one more completed id adds its match, when kept, and nothing else |
| Matcher.LookUpCandidates | src/matcher.py:120-150 | whatever the completion order, the collected matches are the kept matches, each once |
| Matcher.MatchTheMealDb | src/matcher.py:113-151 | raises when the candidate search raises; otherwise returns the kept matches, each once |
| Matcher.SelectedSources | src/matcher.py:162 | `set(sources) if sources else {SOURCE_MEALDB}`: no sources or an empty list select TheMealDB alone; otherwise exactly the sources listed |
| Matcher.MatchRecipes | src/matcher.py:154-169 | an empty normalised inventory or no TheMealDB source gives `[]`; otherwise, with the corrected name, the call raises exactly when a filter call raises, and its result is the kept matches sorted by missing count, lower-cased name and source |
| Matcher.IdList | src/matcher.py:182 | every non-empty id occurs as often as in the records and no empty id occurs; when every record has an id, the list is the records' ids in order |
| Matcher.Found | src/matcher.py:184-204 | the matches the loop of `match_recipes_by_ingredient` appends, one for each candidate id that gives a match, in id order; `FoundMeaning` and `FoundKeepsEveryId` state its meaning |
| Matcher.FoundMeaning | src/matcher.py:184-204 | a match is appended exactly when it is the judged match of some candidate id |
| Matcher.FoundKeepsEveryId | src/matcher.py:184-204 | when every id is kept, there is one match per id, in id order |
| Matcher.CollectMatches | src/matcher.py:184-204 | the loop raises when any lookup raises; otherwise it appends one match per found, non-dessert record, in id order |
| Matcher.MatchRecipesByIngredient | src/matcher.py:172-207 | the method computes `ByIngredient`: `[]` for an ingredient that normalises to `""`, Raised when the filter or a lookup raises (with the corrected name), and otherwise the found matches sorted by name |
| Matcher.ByIngredient | src/matcher.py:172-207 | what `match_recipes_by_ingredient` returns, built from the filter and lookup answers; `ByIngredientMeaning` states its properties |
| Matcher.ByIngredientMeaning | src/matcher.py:172-207 | a successful result for a non-empty ingredient is sorted by lower-cased name and source and is a rearrangement of the found matches, with no threshold |
| Listing.CleanItemFacts | src/inventory.py:21 | a cleaned item is empty exactly when the item is blank, and is otherwise non-empty, stripped and lower-case |
| Listing.CleanItem | src/inventory.py:21 | `item.strip().lower()`; `CleanItemFacts` states when it is empty and that it is otherwise clean |
| Listing.Clean | src/inventory.py:21 | the stored form is strictly sorted, holds only clean entries, and has exactly the cleaned non-blank items |
| Listing.CleanOfClean | src/inventory.py:26 | cleaning an already clean list leaves it unchanged |
| Listing.CleanIdempotent | src/inventory.py:21-26 | cleaning twice is cleaning once |
| Listing.CleanOrderFree | src/cart.py:24 | lists with the same items, in any order, clean to the same list |
| Listing.CleanAppend | src/inventory.py:31-35 | appending an item adds its cleaned form exactly when it is not blank |
| Listing.CleanAppendBlank | src/cart.py:29-33 | appending a blank item changes nothing |
| Listing.WithoutKeepsClean | src/inventory.py:38-41 | removing one entry from a clean list leaves a clean list, saved unchanged |
| Listing.RemoveAbsentIsNoOp | src/inventory.py:38-41 | removing an item that is not in the list leaves the list as it was |
| Listing.Loaded | src/inventory.py:14-21 | a loaded list is clean, empty for a missing file, and otherwise holds exactly the file's cleaned non-blank items |
| Listing.AddBlankItemIsNoOp | src/inventory.py:31-35 | adding a blank item leaves the list as it was |
| Listing.SaveThenLoad | src/inventory.py:14-28 | loading just after saving gives the saved, cleaned list |
| Listing.AddThenRemove | src/cart.py:29-39 | adding and then removing an item gives exactly the earlier list with that item removed |
| Inventory.Fridge.LoadInventory | src/inventory.py:14-21 | a missing file is created empty and `[]` returned; otherwise the file is untouched and its cleaned list returned |
| Inventory.Fridge.SaveInventory | src/inventory.py:24-28 | the file holds the cleaned list |
| Inventory.Fridge.AddItem | src/inventory.py:31-35 | the file and the result are the cleaned old list plus the item: the old entries and the cleaned item when it has text |
| Inventory.Fridge.RemoveItem | src/inventory.py:38-41 | the file and the result are the old list without the cleaned item |
| Cart.ShoppingCart.LoadCart | src/cart.py:12-19 | a missing file is created empty and `[]` returned; otherwise the file is untouched and its cleaned list returned |
| Cart.ShoppingCart.SaveCart | src/cart.py:22-26 | the file holds the cleaned list |
| Cart.ShoppingCart.AddToCart | src/cart.py:29-33 | the file and the result are the cleaned old list plus the item: the old entries and the cleaned item when it has text |
| Cart.ShoppingCart.RemoveFromCart | src/cart.py:36-39 | the file and the result are the old list without the cleaned item |

## Left out

- Non-ASCII text. `Lower`, `Strip` and `\w` follow ASCII rules. Python applies Unicode rules to letters, digits and whitespace beyond ASCII.
- HTTP. `requests`, the timeout, `raise_for_status`, `BASE_URL` and `load_dotenv` are not modelled. The endpoint is a function from the query to a record list, no list, or `Raised`.
- The in-process `lru_cache` of `_get_cached`. It returns what the endpoint returned for the same frozen query, and `MealDb.FreezeParamsOrderFree` shows which queries share an entry.
- SQLite and JSON encoding. `init_db`, `_connect`, WAL mode and `json.dumps`/`json.loads` are not modelled. The tables always exist, and the `Cache` constructor stands for the database as found. Payloads round-trip unchanged.
- The clock is the parameter `now`, one value per cache call. `time.time()` is not modelled.
- Concurrency. The thread pool's eight workers run in some order, and every order is covered. Cache writes from parallel lookups are not modelled.
- Matcher.LookUpCandidates: builds matches with the corrected `Recipes.MealName`, so a record whose `strMeal` is JSON null gives a match named "Unknown" instead of `None`.
- Matcher.MatchTheMealDb: returns the matches of `LookUpCandidates`, so a record whose `strMeal` is JSON null gives a match named "Unknown" where the source's match would carry `None`.
- Matcher.MatchRecipes: does not raise on a kept record whose `strMeal` is JSON null, as the sort at src/matcher.py:168 does; it raises only when a filter call raises. The as-written raise is modelled by `Recipes.SortNameAsWritten` (see "## Findings").
- Recipes.BuildMatch: names the match with the corrected `Recipes.MealName`, so a record whose `strMeal` is JSON null gives "Unknown" where src/matcher.py:143 gives `None`.
- Recipes.Assess: returns `BuildMatch`, so it too names a null-`strMeal` record "Unknown".
- Matcher.JudgeOf: returns the `Assess` verdict, so it too names a null-`strMeal` record "Unknown".
- Matcher.KeptMatches: keeps matches built by `JudgeOf`, so a null-`strMeal` match is named "Unknown" instead of `None`.
- Matcher.Found: collects matches built by `JudgeOf`, so a null-`strMeal` match is named "Unknown" instead of `None`.
- Matcher.CollectMatches: builds matches with the corrected `Recipes.MealName`, as `LookUpCandidates` does.
- Matcher.ByIngredient: does not raise on a found record whose `strMeal` is JSON null, as the sort at src/matcher.py:206 does; it raises only when the filter or a lookup raises.
- Matcher.MatchRecipesByIngredient: computes `ByIngredient`, so it too does not raise on a null `strMeal`.
- Matcher.MatchTheMealDb, Matcher.MatchRecipes: `filter` and `lookup` are the answers of `MealDb.FilterByIngredient` and `MealDb.LookupMeal`. Those methods prove that a cache agreeing with the endpoint gives the endpoint's answers and keeps agreeing. The matcher does not thread the `Cache` object through its calls.
- Ranking.SortMatches: Python's sort is stable. The model proves ordering by key and rearrangement, not that equal keys keep their input order. For `match_recipes` the input order is itself any completion order.
- JSON values other than strings and null, for example numbers in an `strIngredient` slot. Python would raise on `.strip()` of a number.
- `sources` is modelled as an optional list. An empty list counts as not given, as `if sources` does. A generator is always truthy in Python and is not modelled.
- A malformed inventory or cart file. `json.loads` errors and non-string items both raise in Python. A file without `"items"` is read as an empty list.
- `_SINGULAR_OVERRIDES` is empty in the source. `Normalizer.SingularizeWith` takes any table. `Normalizer.Singularize` uses the empty one.
- `app.py`, `pages/shopping_cart.py`, `src/cart_view.py`, `src/styles.py` and `src/supabase_store.py` are user interface and remote storage, and are not part of this model.

## Findings

| source | as written | input that shows it | evidently intended | confidence | as-written member | corrected member |
|---|---|---|---|---|---|---|
| src/matcher.py:143 | `name=meal.get("strMeal", "Unknown")` returns None when the record's `strMeal` is JSON null, and the sort key at line 168 (or 206) then calls `None.lower()`, so the whole search raises | a looked-up record `{"idMeal": "52772", "strMeal": null}` that is not a dessert and reaches the results | "Unknown" for a missing or null name, so the search still succeeds | low, not executed | Recipes.NullNameExample | Recipes.MealName |

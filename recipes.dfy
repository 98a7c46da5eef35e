/** The recipe records the matcher produces (`RecipeMatch` in
    src/matcher.py) and how one looked-up meal becomes one: the skip rules,
    the normalised ingredient list and the missing ingredients. */
module Recipes {

  import opened Optional
  import opened Json
  import opened Text
  import opened StringOrder
  import opened Normalizer
  import opened MealDb

  /** `SOURCE_MEALDB` */
  const SourceMealDb: string := "TheMealDB"

  /** `RecipeMatch`. The thumbnail is the record's field as it is, which may
      be JSON null. */
  datatype RecipeMatch = RecipeMatch(
    id: string,
    name: string,
    thumbnail: Value,
    ingredients: seq<string>,
    missing: seq<string>,
    source: string,
    detailsUrl: string)

  /** `f"https://www.themealdb.com/meal/{meal_id}"` */
  function DetailsUrl(mealId: string): string
  {
    "https://www.themealdb.com/meal/" + mealId
  }

  /** `(meal.get("strCategory") or "").strip().lower()` */
  function Category(meal: Payload): string
  {
    Lower(Strip(Field(meal, "strCategory")))
  }

  /** `[i for i in ingredients if i not in inventory_set and i not in
      _IGNORE_SPICES]`: exactly the ingredients that are neither in the
      inventory nor pantry staples, in their original order. */
  function Missing(ingredients: seq<string>, inventory: set<string>): (r: seq<string>)
    ensures forall x :: x in r <==> x in ingredients && x !in inventory && x !in IgnoreSpices
    ensures |r| <= |ingredients|
    ensures StrictlySorted(ingredients) ==> StrictlySorted(r)
  {
    if ingredients == [] then []
    else
      var x := ingredients[0];
      var rest := Missing(ingredients[1..], inventory);
      assert ingredients == [x] + ingredients[1..];
      assert StrictlySorted(ingredients) ==> forall y :: y in rest ==> Less(x, y) by {
        if StrictlySorted(ingredients) {
          forall y | y in rest ensures Less(x, y) {
            var j :| 0 < j < |ingredients| && ingredients[j] == y;
          }
        }
      }
      if x !in inventory && x !in IgnoreSpices then [x] + rest else rest
  }

  /** The name the evident intent of `meal.get("strMeal", "Unknown")` gives:
      the record's name, and "Unknown" when it is absent or JSON null. */
  function MealName(meal: Payload): (r: string)
    ensures NameAsWritten(meal).Str? ==> NameAsWritten(meal) == Str(r)
    ensures NameAsWritten(meal) == Null ==> r == "Unknown"
  {
    if "strMeal" in meal && meal["strMeal"].Str? then meal["strMeal"].s else "Unknown"
  }

  /** `meal.get("strMeal", "Unknown")` as written: a JSON null is kept. */
  function NameAsWritten(meal: Payload): Value
  {
    if "strMeal" in meal then meal["strMeal"] else Str("Unknown")
  }

  /** `r.name.lower()` in the sort keys of src/matcher.py as written: calling
      `lower` on None raises. */
  function SortNameAsWritten(name: Value): Outcome<string>
  {
    match name
    case Str(s) => Done(Lower(s))
    case Null => Raised
  }

  /** A record whose name is JSON null makes the final sort raise, so the
      whole call fails, while the corrected name is "Unknown". On every other
      record the two agree. */
  lemma NullNameBreaksSort(meal: Payload)
    ensures "strMeal" in meal && meal["strMeal"] == Null ==>
      SortNameAsWritten(NameAsWritten(meal)) == Raised && MealName(meal) == "Unknown"
    ensures !("strMeal" in meal && meal["strMeal"] == Null) ==>
      SortNameAsWritten(NameAsWritten(meal)) == Done(Lower(MealName(meal)))
  {
  }

  /** A concrete record that shows it. */
  lemma NullNameExample()
    ensures SortNameAsWritten(NameAsWritten(map["idMeal" := Str("52772"), "strMeal" := Null])) == Raised
  {
  }

  /** `meal.get("strMealThumb", "")` */
  function Thumbnail(meal: Payload): Value
  {
    if "strMealThumb" in meal then meal["strMealThumb"] else Str("")
  }

  /** The ingredient list of a match: `_normalize_list(parse_ingredients(meal))`. */
  function MealIngredients(meal: Payload): seq<string>
  {
    NormalizeList(SlotsUpTo(meal, IngredientSlots))
  }

  /** The match built for a kept record. */
  function BuildMatch(mealId: string, meal: Payload, inventory: set<string>): RecipeMatch
  {
    var ingredients := MealIngredients(meal);
    RecipeMatch(mealId, MealName(meal), Thumbnail(meal), ingredients,
                Missing(ingredients, inventory), SourceMealDb, DetailsUrl(mealId))
  }

  /** One lookup outcome judged by the loop bodies of `_match_themealdb` and
      `match_recipes_by_ingredient`: a raised lookup, a None or empty record
      and a dessert give nothing; any other record gives its match. */
  function Assess(mealId: string, found: Outcome<Option<Payload>>, inventory: set<string>): Option<RecipeMatch>
  {
    if found.Done? && found.value.Some? && found.value.value != map[]
       && Category(found.value.value) !in ExcludeCategories
    then Some(BuildMatch(mealId, found.value.value, inventory))
    else None
  }

  /** Every match is about its own id, comes from TheMealDB, lists the
      sorted, distinct, non-empty normal forms of the record's ingredient
      slots, and lists as missing exactly those that are neither in the
      inventory nor pantry staples, in the same order. */
  lemma AssessFacts(mealId: string, found: Outcome<Option<Payload>>, inventory: set<string>)
    requires Assess(mealId, found, inventory).Some?
    ensures var m := Assess(mealId, found, inventory).value;
      && found.Done? && found.value.Some?
      && Category(found.value.value) != "dessert"
      && m.id == mealId && m.source == SourceMealDb && m.detailsUrl == DetailsUrl(mealId)
      && StrictlySorted(m.ingredients) && "" !in m.ingredients
      && Elems(m.ingredients) == NormalSet(SlotsUpTo(found.value.value, IngredientSlots)) - {""}
      && StrictlySorted(m.missing)
      && (forall x :: x in m.missing <==> x in m.ingredients && x !in inventory && x !in IgnoreSpices)
  {
  }
}

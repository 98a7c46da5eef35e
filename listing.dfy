/** The canonical form src/inventory.py and src/cart.py give a stored list of
    items: `sorted({item.strip().lower() for item in items if item.strip()})`. */
module Listing {

  import opened Optional
  import opened Text
  import opened StringOrder

  /** `item.strip().lower()` */
  function CleanItem(item: string): string
  {
    Lower(Strip(item))
  }

  /** A canonical entry: non-empty, stripped and lower-case. */
  predicate IsCleanItem(x: string)
  {
    x != "" && Strip(x) == x && Lower(x) == x
  }

  /** A canonical list: strictly increasing, of canonical entries. */
  predicate IsClean(s: seq<string>)
  {
    StrictlySorted(s) && forall k :: 0 <= k < |s| ==> IsCleanItem(s[k])
  }

  lemma CleanItemFacts(item: string)
    ensures HasText(item) <==> CleanItem(item) != ""
    ensures CleanItem(item) != "" ==> IsCleanItem(CleanItem(item))
  {
    StripShape(item);
    LowerStripIsClean(item);
  }

  /** The entries of the canonical form: the cleaned non-blank items. */
  function CleanSet(items: seq<string>): set<string>
  {
    set x | x in items && HasText(x) :: CleanItem(x)
  }

  /** The cleaning of load and save: a canonical list whose entries are
      exactly the stripped, lower-cased non-blank items. */
  function Clean(items: seq<string>): (r: seq<string>)
    ensures IsClean(r)
    ensures Elems(r) == CleanSet(items)
  {
    var image := NonEmptyImage(CleanItem, HasText, items);
    assert CleanSet(items) - {""} == CleanSet(items) by {
      forall x | x in items && HasText(x) ensures CleanItem(x) != "" {
        CleanItemFacts(x);
      }
    }
    var r := SortedSet(image);
    forall k | 0 <= k < |r| ensures IsCleanItem(r[k]) {
      assert r[k] in Elems(r);
      var x :| x in items && HasText(x) && CleanItem(x) == r[k];
      CleanItemFacts(x);
    }
    r
  }

  /** Cleaning a canonical list changes nothing. */
  lemma CleanOfClean(s: seq<string>)
    requires IsClean(s)
    ensures Clean(s) == s
  {
    forall x | x in s ensures HasText(x) && CleanItem(x) == x {
      var k :| 0 <= k < |s| && s[k] == x;
      assert IsCleanItem(s[k]);
    }
    assert CleanSet(s) == Elems(s);
    SortedUnique(Clean(s), s);
  }

  /** Cleaning is idempotent. */
  lemma CleanIdempotent(items: seq<string>)
    ensures Clean(Clean(items)) == Clean(items)
  {
    CleanOfClean(Clean(items));
  }

  /** Only the set of items matters, not their order or repeats. */
  lemma CleanOrderFree(a: seq<string>, b: seq<string>)
    requires Elems(a) == Elems(b)
    ensures Clean(a) == Clean(b)
  {
    assert forall x :: x in a <==> x in Elems(a);
    assert forall x :: x in b <==> x in Elems(b);
    assert CleanSet(a) == CleanSet(b);
    SortedUnique(Clean(a), Clean(b));
  }

  /** Appending an item adds its cleaned form when it is not blank. */
  lemma CleanAppend(s: seq<string>, x: string)
    ensures Elems(Clean(s + [x])) == Elems(Clean(s)) + (if HasText(x) then {CleanItem(x)} else {})
  {
    assert forall y :: y in s + [x] <==> y in s || y == x;
  }

  /** Appending a blank item leaves the canonical form as it was. */
  lemma CleanAppendBlank(s: seq<string>, x: string)
    requires !HasText(x)
    ensures Clean(s + [x]) == Clean(s)
  {
    CleanAppend(s, x);
    SortedUnique(Clean(s + [x]), Clean(s));
  }

  /** Dropping one entry from a canonical list leaves it canonical. */
  lemma WithoutKeepsClean(s: seq<string>, key: string)
    requires IsClean(s)
    ensures IsClean(Without(s, key))
    ensures Clean(Without(s, key)) == Without(s, key)
  {
    var r := Without(s, key);
    forall k | 0 <= k < |r| ensures IsCleanItem(r[k]) {
      assert r[k] in Elems(r);
      var j :| 0 <= j < |s| && s[j] == r[k];
    }
    CleanOfClean(r);
  }

  /** What loading returns for a given file: nothing when the file is
      absent, otherwise the canonical form of its "items" list. */
  function Loaded(file: Option<seq<string>>): (r: seq<string>)
    ensures IsClean(r)
    ensures file.None? ==> r == []
    ensures file.Some? ==> Elems(r) == CleanSet(file.value)
  {
    if file.None? then [] else Clean(file.value)
  }

  /** Adding a blank item changes neither the file's list nor the result. */
  lemma AddBlankItemIsNoOp(file: Option<seq<string>>, item: string)
    requires !HasText(item)
    ensures Clean(Loaded(file) + [item]) == Loaded(file)
  {
    CleanAppendBlank(Loaded(file), item);
    CleanOfClean(Loaded(file));
  }

  /** Loading what was just saved gives back the saved, canonical list. */
  lemma SaveThenLoad(items: seq<string>)
    ensures Loaded(Some(Clean(items))) == Clean(items)
  {
    CleanIdempotent(items);
  }

  /** Removing an item just added gives the earlier list without that item,
      whatever else it held. */
  lemma AddThenRemove(file: Option<seq<string>>, item: string)
    requires HasText(item)
    ensures Without(Clean(Loaded(file) + [item]), CleanItem(item)) == Without(Loaded(file), CleanItem(item))
  {
    CleanAppend(Loaded(file), item);
    CleanOfClean(Loaded(file));
    SortedUnique(Without(Clean(Loaded(file) + [item]), CleanItem(item)), Without(Loaded(file), CleanItem(item)));
  }

  /** Removing an item that is not in the list leaves the list as it was. */
  lemma RemoveAbsentIsNoOp(file: Option<seq<string>>, item: string)
    requires CleanItem(item) !in Loaded(file)
    ensures Without(Loaded(file), CleanItem(item)) == Loaded(file)
  {
    SortedUnique(Without(Loaded(file), CleanItem(item)), Loaded(file));
  }
}

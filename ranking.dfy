/** The two final sorts of src/matcher.py: `match_recipes` orders by
    `(len(r.missing), r.name.lower(), r.source)` and
    `match_recipes_by_ingredient` by `(r.name.lower(), r.source)`. */
module Ranking {

  import opened Text
  import opened StringOrder
  import opened Recipes

  /** A sort key tuple; the first component is 0 for the two-part key. */
  datatype SortKey = SortKey(missing: nat, name: string, source: string)

  /** Python's `<` on the key tuples: component by component. */
  predicate KeyLess(a: SortKey, b: SortKey)
  {
    a.missing < b.missing
    || (a.missing == b.missing && (Less(a.name, b.name) || (a.name == b.name && Less(a.source, b.source))))
  }

  lemma KeyLessIrreflexive(a: SortKey)
    ensures !KeyLess(a, a)
  {
    LessIrreflexive(a.name);
    LessIrreflexive(a.source);
  }

  lemma KeyLessTransitive(a: SortKey, b: SortKey, c: SortKey)
    requires KeyLess(a, b) && KeyLess(b, c)
    ensures KeyLess(a, c)
  {
    if a.missing == b.missing == c.missing {
      if Less(a.name, b.name) && Less(b.name, c.name) {
        LessTransitive(a.name, b.name, c.name);
      } else if a.name == b.name == c.name {
        LessTransitive(a.source, b.source, c.source);
      }
    }
  }

  lemma KeyLessTotal(a: SortKey, b: SortKey)
    ensures a == b || KeyLess(a, b) || KeyLess(b, a)
  {
    LessTotal(a.name, b.name);
    LessTotal(a.source, b.source);
  }

  /** Which of the two sorts. */
  datatype Order = ByMissingThenName | ByName

  function Key(o: Order, m: RecipeMatch): SortKey
  {
    SortKey(if o == ByMissingThenName then |m.missing| else 0, Lower(m.name), m.source)
  }

  /** Non-decreasing by the key: no later element has a smaller key. */
  predicate SortedBy(o: Order, s: seq<RecipeMatch>)
  {
    forall i, j :: 0 <= i < j < |s| ==> !KeyLess(Key(o, s[j]), Key(o, s[i]))
  }

  /** m may go in front of a sorted list whose head has a greater key. */
  lemma SortedCons(o: Order, m: RecipeMatch, s: seq<RecipeMatch>)
    requires SortedBy(o, s) && s != [] && KeyLess(Key(o, m), Key(o, s[0]))
    ensures SortedBy(o, [m] + s)
  {
    forall k | 0 <= k < |s| ensures !KeyLess(Key(o, s[k]), Key(o, m)) {
      if KeyLess(Key(o, s[k]), Key(o, m)) {
        KeyLessTransitive(Key(o, s[k]), Key(o, m), Key(o, s[0]));
        if k == 0 { KeyLessIrreflexive(Key(o, s[0])); }
      }
    }
    var r := [m] + s;
    assert forall j :: 0 < j < |r| ==> r[j] == s[j - 1];
  }

  /** A head whose key is not greater than any element of a sorted list may
      go in front of it. */
  lemma SortedConsNotGreater(o: Order, h: RecipeMatch, rest: seq<RecipeMatch>)
    requires SortedBy(o, rest)
    requires forall k :: 0 <= k < |rest| ==> !KeyLess(Key(o, rest[k]), Key(o, h))
    ensures SortedBy(o, [h] + rest)
  {
    var r := [h] + rest;
    assert forall j :: 0 < j < |r| ==> r[j] == rest[j - 1];
  }

  /** Inserts m after every element whose key is not greater. */
  function InsertMatch(o: Order, m: RecipeMatch, s: seq<RecipeMatch>): (r: seq<RecipeMatch>)
    requires SortedBy(o, s)
    ensures SortedBy(o, r)
    ensures multiset(r) == multiset(s) + multiset{m}
  {
    if s == [] then [m]
    else if KeyLess(Key(o, m), Key(o, s[0])) then
      SortedCons(o, m, s);
      [m] + s
    else
      var tail := s[1..];
      assert s == [s[0]] + tail;
      var rest := InsertMatch(o, m, tail);
      forall k | 0 <= k < |rest| ensures !KeyLess(Key(o, rest[k]), Key(o, s[0])) {
        assert rest[k] in multiset(rest);
        if rest[k] != m {
          var j :| 0 <= j < |tail| && tail[j] == rest[k];
          assert s[j + 1] == rest[k];
        }
      }
      SortedConsNotGreater(o, s[0], rest);
      [s[0]] + rest
  }

  /** `list.sort(key=...)`: sorted by the key, and a permutation of s. */
  function SortMatches(o: Order, s: seq<RecipeMatch>): (r: seq<RecipeMatch>)
    ensures SortedBy(o, r)
    ensures multiset(r) == multiset(s)
  {
    if s == [] then []
    else
      var init := s[..|s| - 1];
      assert s == init + [s[|s| - 1]];
      InsertMatch(o, s[|s| - 1], SortMatches(o, init))
  }
}

/** Python's ordering of `str` values and `sorted(set(...))` on strings. */
module StringOrder {

  /** Python's `a < b` on str: the first differing code point decides, and a
      proper prefix comes first. */
  predicate Less(a: string, b: string)
    decreases |a|
  {
    b != [] && (a == [] || a[0] < b[0] || (a[0] == b[0] && Less(a[1..], b[1..])))
  }

  lemma {:induction false} LessIrreflexive(a: string)
    ensures !Less(a, a)
  {
    if a != [] {
      LessIrreflexive(a[1..]);
    }
  }

  lemma {:induction false} LessTransitive(a: string, b: string, c: string)
    requires Less(a, b) && Less(b, c)
    ensures Less(a, c)
    decreases |a|
  {
    if a != [] && a[0] == b[0] && b[0] == c[0] {
      LessTransitive(a[1..], b[1..], c[1..]);
    }
  }

  lemma LessAsymmetric(a: string, b: string)
    requires Less(a, b)
    ensures !Less(b, a)
  {
    if Less(b, a) {
      LessTransitive(a, b, a);
      LessIrreflexive(a);
    }
  }

  lemma LessNotBoth(a: string, b: string)
    ensures !(Less(a, b) && Less(b, a))
  {
    if Less(a, b) {
      LessAsymmetric(a, b);
    }
  }

  lemma {:induction false} LessTotal(a: string, b: string)
    ensures a == b || Less(a, b) || Less(b, a)
    decreases |a|
  {
    if a != [] && b != [] && a[0] == b[0] {
      LessTotal(a[1..], b[1..]);
      if a[1..] == b[1..] {
        assert a == [a[0]] + a[1..] && b == [b[0]] + b[1..];
      }
    }
  }

  /** Strictly increasing: sorted and without repeats. */
  predicate StrictlySorted(s: seq<string>)
  {
    forall i, j :: 0 <= i < j < |s| ==> Less(s[i], s[j])
  }

  function Elems(s: seq<string>): set<string>
  {
    set x | x in s
  }

  lemma LessThanAll(x: string, s: seq<string>)
    requires StrictlySorted(s) && s != [] && Less(x, s[0])
    ensures forall j :: 0 <= j < |s| ==> Less(x, s[j])
  {
    forall j | 0 < j < |s| {
      LessTransitive(x, s[0], s[j]);
    }
  }

  /** Adds x to a strictly increasing sequence, keeping it so. */
  function InsertSorted(x: string, s: seq<string>): (r: seq<string>)
    requires StrictlySorted(s)
    ensures StrictlySorted(r)
    ensures Elems(r) == Elems(s) + {x}
  {
    if s == [] then [x]
    else if x == s[0] then s
    else if Less(x, s[0]) then
      LessThanAll(x, s);
      [x] + s
    else
      LessTotal(x, s[0]);
      var rest := InsertSorted(x, s[1..]);
      assert Elems(s) == {s[0]} + Elems(s[1..]) by {
        assert s == [s[0]] + s[1..];
      }
      assert forall y :: y in rest ==> Less(s[0], y) by {
        forall y | y in rest ensures Less(s[0], y) {
          assert y in Elems(rest);
        }
      }
      ElemsConcat([s[0]], rest);
      [s[0]] + rest
  }

  lemma ElemsConcat(a: seq<string>, b: seq<string>)
    ensures Elems(a + b) == Elems(a) + Elems(b)
  {
  }

  /** `sorted(set(s))`: the distinct elements of s in increasing order. */
  function SortedSet(s: seq<string>): (r: seq<string>)
    ensures StrictlySorted(r)
    ensures Elems(r) == Elems(s)
  {
    if s == [] then []
    else
      var init := s[..|s| - 1];
      assert s == init + [s[|s| - 1]];
      InsertSorted(s[|s| - 1], SortedSet(init))
  }

  /** A strictly increasing sequence is determined by its elements. */
  lemma {:induction false} SortedUnique(a: seq<string>, b: seq<string>)
    requires StrictlySorted(a) && StrictlySorted(b)
    requires Elems(a) == Elems(b)
    ensures a == b
  {
    if a == [] || b == [] {
      EmptyElems(a);
      EmptyElems(b);
    } else {
      assert a[0] in Elems(b) && b[0] in Elems(a);
      var k :| 0 <= k < |b| && b[k] == a[0];
      var m :| 0 <= m < |a| && a[m] == b[0];
      if k > 0 && m > 0 {
        LessAsymmetric(a[0], b[0]);
      }
      assert a[0] == b[0];
      forall y ensures y in Elems(a[1..]) <==> y in Elems(b[1..]) {
        TailElems(a, y);
        TailElems(b, y);
      }
      SortedUnique(a[1..], b[1..]);
      assert a == [a[0]] + a[1..] && b == [b[0]] + b[1..];
    }
  }

  lemma EmptyElems(s: seq<string>)
    ensures Elems(s) == {} <==> s == []
  {
    if s != [] {
      assert s[0] in Elems(s);
    }
  }

  lemma TailElems(s: seq<string>, y: string)
    requires StrictlySorted(s) && s != []
    ensures StrictlySorted(s[1..])
    ensures y in Elems(s[1..]) <==> y in Elems(s) && y != s[0]
  {
    if y in Elems(s[1..]) {
      var j :| 0 <= j < |s[1..]| && s[1..][j] == y;
      assert Less(s[0], s[j + 1]);
      LessIrreflexive(y);
    }
    if y in Elems(s) && y != s[0] {
      var j :| 0 <= j < |s| && s[j] == y;
      assert s[1..][j - 1] == y;
    }
  }

  /** `[x for x in s if x != key]`, and its sortedness. */
  function Without(s: seq<string>, key: string): (r: seq<string>)
    ensures StrictlySorted(s) ==> StrictlySorted(r)
    ensures Elems(r) == Elems(s) - {key}
  {
    if s == [] then []
    else
      var rest := Without(s[1..], key);
      assert s == [s[0]] + s[1..];
      assert StrictlySorted(s) ==> forall y :: y in rest ==> Less(s[0], y) by {
        if StrictlySorted(s) {
          forall y | y in rest ensures Less(s[0], y) {
            assert y in Elems(rest);
            var j :| 0 < j < |s| && s[j] == y;
          }
        }
      }
      ElemsConcat([s[0]], rest);
      ElemsConcat([s[0]], s[1..]);
      if s[0] == key then rest else [s[0]] + rest
  }

  /** `[f(x) for x in items if keep(x)]` without the "" results, in order and
      with repeats: as a set, `{f(x) for x in items if keep(x)} - {""}`. */
  function NonEmptyImage(f: string -> string, keep: string -> bool, items: seq<string>): (r: seq<string>)
    ensures Elems(r) == (set x | x in items && keep(x) :: f(x)) - {""}
  {
    if items == [] then []
    else
      var rest := NonEmptyImage(f, keep, items[1..]);
      var head := if keep(items[0]) && f(items[0]) != "" then [f(items[0])] else [];
      ElemsConcat(head, rest);
      assert forall x :: x in items <==> x == items[0] || x in items[1..];
      head + rest
  }
}

/** Ingredient normalisation: the comparison key of a free-text ingredient
    (src/matcher.py, the constants and the four normalising functions). */
module Normalizer {

  import opened Text
  import opened StringOrder

  /** Units and connector words dropped before singularising (`_MEASURE_WORDS`). */
  const MeasureWords: set<string> := {
    "cup", "cups", "tablespoon", "tablespoons", "tbsp", "teaspoon", "teaspoons",
    "tsp", "oz", "ounce", "ounces", "g", "kg", "ml", "l", "lb", "lbs", "pound",
    "pinch", "dash", "slice", "slices", "clove", "cloves", "to", "taste"
  }

  /** `_SINGULAR_OVERRIDES`, empty in the source. */
  const SingularOverrides: map<string, string> := map[]

  /** Pantry staples never counted as missing (`_IGNORE_SPICES`). */
  const IgnoreSpices: set<string> := {
    "salt", "pepper", "black pepper", "white pepper", "paprika", "cumin",
    "coriander", "turmeric", "chili powder", "cinnamon", "water"
  }

  /** Recipe categories the matcher skips (`_EXCLUDE_CATEGORIES`). */
  const ExcludeCategories: set<string> := {"dessert"}

  /** `str.endswith` */
  predicate EndsWith(s: string, suffix: string)
  {
    |suffix| <= |s| && s[|s| - |suffix|..] == suffix
  }

  /** `_singularize` with its override table as a parameter. */
  function SingularizeWith(overrides: map<string, string>, token: string): string
  {
    if token in overrides then overrides[token]
    else if EndsWith(token, "ies") && |token| > 4 then token[..|token| - 3] + "y"
    else if EndsWith(token, "es") && |token| > 3
            && !(EndsWith(token, "ses") || EndsWith(token, "xes") || EndsWith(token, "zes"))
    then token[..|token| - 2]
    else if EndsWith(token, "s") && |token| > 3 && !(EndsWith(token, "ss") || EndsWith(token, "us"))
    then token[..|token| - 1]
    else token
  }

  /** `_singularize`: never lengthens a token, leaves tokens of three or
      fewer characters alone, and keeps every character but perhaps a new
      final 'y'. */
  function Singularize(token: string): (r: string)
    ensures |token| - 2 <= |r| <= |token|
    ensures |token| <= 3 ==> r == token
    ensures forall i :: 0 <= i < |r| ==> r[i] == token[i] || (i == |r| - 1 && r[i] == 'y')
  {
    SingularizeWith(SingularOverrides, token)
  }

  lemma SingularizeToken(t: string)
    requires IsToken(t)
    ensures IsToken(Singularize(t))
  {
  }

  lemma EndsWithLast(s: string, suffix: string)
    requires EndsWith(s, suffix) && suffix != []
    ensures s[|s| - 1] == suffix[|suffix| - 1]
  {
    assert s[|s| - |suffix|..][|suffix| - 1] == s[|s| - 1];
  }

  /** None of the rules applies to a token that does not end in 's'. */
  lemma NoRuleWithoutS(r: string)
    requires r == [] || r[|r| - 1] != 's'
    ensures Singularize(r) == r
  {
    if EndsWith(r, "ies") { EndsWithLast(r, "ies"); }
    if EndsWith(r, "es") { EndsWithLast(r, "es"); }
    if EndsWith(r, "s") { EndsWithLast(r, "s"); }
  }

  /** With the empty override table, singularising twice is singularising once. */
  lemma SingularizeIdempotent(token: string)
    ensures Singularize(Singularize(token)) == Singularize(token)
  {
    var n := |token|;
    if EndsWith(token, "ies") && n > 4 {
      var r := token[..n - 3] + "y";
      assert r[|r| - 1] == 'y';
      NoRuleWithoutS(r);
    } else if EndsWith(token, "es") && n > 3
              && !(EndsWith(token, "ses") || EndsWith(token, "xes") || EndsWith(token, "zes")) {
      var r := token[..n - 2];
      assert token[n - 3..] == [token[n - 3]] + token[n - 2..];
      NoRuleWithoutS(r);
    } else if EndsWith(token, "s") && n > 3 && !(EndsWith(token, "ss") || EndsWith(token, "us")) {
      var r := token[..n - 1];
      assert token[n - 2..] == [token[n - 2]] + token[n - 1..];
      NoRuleWithoutS(r);
    }
  }

  /** `re.sub(r"[^\w\s]", " ", s)`: every character that is neither a word
      character nor whitespace becomes a space. */
  function Unpunctuate(s: string): (r: string)
    ensures |r| == |s|
    ensures forall i :: 0 <= i < |r| ==> IsWordChar(r[i]) || IsSpace(r[i])
    ensures forall i :: 0 <= i < |s| && (IsWordChar(s[i]) || IsSpace(s[i])) ==> r[i] == s[i]
    ensures forall i :: 0 <= i < |s| && !(IsWordChar(s[i]) || IsSpace(s[i])) ==> r[i] == ' '
  {
    seq(|s|, i requires 0 <= i < |s| => if IsWordChar(s[i]) || IsSpace(s[i]) then s[i] else ' ')
  }

  /** `str.isdigit` on ASCII. */
  predicate AllDigits(t: string)
  {
    t != [] && forall i :: 0 <= i < |t| ==> IsDigit(t[i])
  }

  /** `[t for t in ts if t and not t.isdigit()]` */
  function DropNumbers(ts: seq<string>): (r: seq<string>)
    ensures forall k :: 0 <= k < |r| ==> r[k] in ts && r[k] != "" && !AllDigits(r[k])
    ensures forall t :: t in ts && t != "" && !AllDigits(t) ==> t in r
  {
    if ts == [] then []
    else (if ts[0] != "" && !AllDigits(ts[0]) then [ts[0]] else []) + DropNumbers(ts[1..])
  }

  /** `[_singularize(t) for t in ts if t not in _MEASURE_WORDS]` */
  function SingularizeKept(ts: seq<string>): seq<string>
  {
    if ts == [] then []
    else (if ts[0] !in MeasureWords then [Singularize(ts[0])] else []) + SingularizeKept(ts[1..])
  }

  /** The whitespace-separated pieces of the lower-cased, de-punctuated text. */
  function RawTokens(text: string): seq<string>
  {
    Split(Unpunctuate(Lower(text)))
  }

  lemma RawTokensAreTokens(text: string)
    ensures forall k :: 0 <= k < |RawTokens(text)| ==> IsToken(RawTokens(text)[k])
  {
    var u := Unpunctuate(Lower(text));
    forall k, i | 0 <= k < |Split(u)| && 0 <= i < |Split(u)[k]|
      ensures IsTokenChar(Split(u)[k][i])
    {
      SplitChars(u, k, i);
      assert IsWord(Split(u)[k]);
    }
  }

  lemma {:induction false} SingularizeKeptTokens(ts: seq<string>)
    requires forall k :: 0 <= k < |ts| ==> IsToken(ts[k])
    ensures forall k :: 0 <= k < |SingularizeKept(ts)| ==> IsToken(SingularizeKept(ts)[k])
  {
    if ts != [] {
      SingularizeToken(ts[0]);
      SingularizeKeptTokens(ts[1..]);
    }
  }

  /** The tokens `_normalize_ingredient` keeps, in their original order. */
  function KeptTokens(text: string): seq<string>
  {
    SingularizeKept(DropNumbers(RawTokens(text)))
  }

  /** `_normalize_ingredient` */
  function NormalizeIngredient(text: string): string
  {
    Strip(Join(KeptTokens(text)))
  }

  /** The normal form holds only lower-case letters, digits, underscores and
      single inner spaces; the final `strip` removes nothing; and its
      space-separated tokens are exactly the singularised input tokens that
      are neither all digits nor measure words, in their original order. */
  lemma NormalizeIngredientShape(text: string)
    ensures Canonical(NormalizeIngredient(text))
    ensures NormalizeIngredient(text) == Join(KeptTokens(text))
    ensures Split(NormalizeIngredient(text)) == KeptTokens(text)
  {
    var kept := KeptTokens(text);
    RawTokensAreTokens(text);
    SingularizeKeptTokens(DropNumbers(RawTokens(text)));
    JoinCanonical(kept);
    SplitJoin(kept);
    StripOfTrimmed(Join(kept));
  }

  /** A blank text normalises to "". */
  lemma BlankNormalizesEmpty(text: string)
    ensures Blank(text) ==> NormalizeIngredient(text) == ""
  {
    if Blank(text) {
      BlankLower(text);
      SplitBlank(Unpunctuate(Lower(text)));
    }
  }

  /** `{_normalize_ingredient(x) for x in items}` */
  function NormalSet(items: seq<string>): set<string>
  {
    set x | x in items :: NormalizeIngredient(x)
  }

  /** Dropping the blank items first does not change the non-empty normal forms. */
  lemma HasTextFilterIrrelevant(items: seq<string>)
    ensures (set x | x in items && HasText(x) :: NormalizeIngredient(x)) - {""} == NormalSet(items) - {""}
  {
    forall y | y in NormalSet(items) - {""}
      ensures y in (set x | x in items && HasText(x) :: NormalizeIngredient(x))
    {
      var x :| x in items && NormalizeIngredient(x) == y;
      BlankNormalizesEmpty(x);
      StripShape(x);
    }
  }

  /** `_normalize_list`: strictly increasing (sorted, no repeats), without
      "", holding exactly the non-empty normal forms of the items. */
  function NormalizeList(items: seq<string>): (r: seq<string>)
    ensures StrictlySorted(r)
    ensures "" !in r
    ensures Elems(r) == NormalSet(items) - {""}
  {
    HasTextFilterIrrelevant(items);
    SortedSet(NonEmptyImage(NormalizeIngredient, HasText, items))
  }

  /** Only the element set of the items matters to `_normalize_list`: order
      and repeats do not. */
  lemma NormalizeListOrderFree(a: seq<string>, b: seq<string>)
    requires Elems(a) == Elems(b)
    ensures NormalizeList(a) == NormalizeList(b)
  {
    assert NormalSet(a) == NormalSet(b) by {
      assert forall x :: x in a <==> x in Elems(a);
      assert forall x :: x in b <==> x in Elems(b);
    }
    SortedUnique(NormalizeList(a), NormalizeList(b));
  }

  lemma NormalSetSingleton(text: string)
    ensures NormalSet([text]) == {NormalizeIngredient(text)}
  {
    assert forall x :: x in [text] <==> x == text;
  }

  /** A list whose elements are {x} - {""} starts with x, or is empty when x is "". */
  lemma FirstOrEmpty(l: seq<string>, x: string)
    requires Elems(l) == {x} - {""}
    ensures (if |l| > 0 then l[0] else "") == x
  {
    if |l| > 0 {
      assert l[0] in Elems(l);
    } else {
      assert x !in Elems(l);
    }
  }

  /** `normalize_item`: the single element of `_normalize_list([text])`, or
      "" when there is none; this is the normal form of the text itself. */
  function NormalizeItem(text: string): (r: string)
    ensures r == NormalizeIngredient(text)
  {
    var l := NormalizeList([text]);
    NormalSetSingleton(text);
    FirstOrEmpty(l, NormalizeIngredient(text));
    if |l| > 0 then l[0] else ""
  }

  lemma {:induction false} DropNumbersKeepsWords(ts: seq<string>)
    requires forall k :: 0 <= k < |ts| ==> IsWord(ts[k]) && !AllDigits(ts[k])
    ensures DropNumbers(ts) == ts
  {
    if ts != [] {
      DropNumbersKeepsWords(ts[1..]);
    }
  }

  lemma {:induction false} SingularizeKeptFixed(ts: seq<string>)
    ensures forall k :: 0 <= k < |SingularizeKept(ts)| ==>
      Singularize(SingularizeKept(ts)[k]) == SingularizeKept(ts)[k]
  {
    if ts != [] {
      SingularizeIdempotent(ts[0]);
      SingularizeKeptFixed(ts[1..]);
    }
  }

  lemma {:induction false} SingularizeKeptKeepsFixed(ts: seq<string>)
    requires forall k :: 0 <= k < |ts| ==> ts[k] !in MeasureWords && Singularize(ts[k]) == ts[k]
    ensures SingularizeKept(ts) == ts
  {
    if ts != [] {
      SingularizeKeptKeepsFixed(ts[1..]);
    }
  }

  /** Lower-casing and removing punctuation leave a canonical string alone. */
  lemma CanonicalFixed(y: string)
    requires Canonical(y)
    ensures Lower(y) == y && Unpunctuate(y) == y
  {
    forall i | 0 <= i < |y|
      ensures Lower(y)[i] == y[i] && Unpunctuate(y)[i] == y[i]
    {
      assert IsTokenChar(y[i]) || y[i] == ' ';
    }
  }

  /** Normalising an already-normalised text changes nothing, provided none
      of its tokens is all digits or a measure word (the tokens are filtered
      before they are singularised, so e.g. "pinches" becomes "pinch" and then
      ""; see NormalizeNotIdempotent). */
  lemma NormalizeStable(text: string)
    requires forall k :: 0 <= k < |KeptTokens(text)| ==>
      !AllDigits(KeptTokens(text)[k]) && KeptTokens(text)[k] !in MeasureWords
    ensures NormalizeIngredient(NormalizeIngredient(text)) == NormalizeIngredient(text)
  {
    var kept := KeptTokens(text);
    NormalizeIngredientShape(text);
    var y := NormalizeIngredient(text);
    CanonicalFixed(y);
    assert RawTokens(y) == kept;
    DropNumbersKeepsWords(kept);
    SingularizeKeptFixed(DropNumbers(RawTokens(text)));
    SingularizeKeptKeepsFixed(kept);
    assert KeptTokens(y) == kept;
  }

  lemma SingleTokenText(t: string)
    requires IsToken(t)
    ensures RawTokens(t) == [t]
  {
    assert Lower(t) == t;
    assert Unpunctuate(t) == t;
    WordLengthOfToken(t, []);
    assert t + [] == t;
    assert !IsSpace(t[0]);
    assert t[..|t|] == t && t[|t|..] == [];
    assert Split(t) == [t[..|t|]] + Split(t[|t|..]);
  }

  lemma SingularizePinches()
    ensures Singularize("pinches") == "pinch"
  {
    assert "pinches"[4..] == "hes" && "pinches"[5..] == "es";
  }

  lemma DropNumbersPinches()
    ensures DropNumbers(["pinches"]) == ["pinches"]
  {
    var p := "pinches";
    assert !IsDigit(p[0]);
    assert DropNumbers([p]) == [p] + DropNumbers([]);
  }

  lemma SingularizeKeptPinches()
    ensures SingularizeKept(["pinches"]) == ["pinch"]
  {
    var p := "pinches";
    SingularizePinches();
    assert p !in MeasureWords;
    assert SingularizeKept([p]) == [Singularize(p)] + SingularizeKept([]);
  }

  lemma KeptPinches()
    ensures KeptTokens("pinches") == ["pinch"]
  {
    SingleTokenText("pinches");
    DropNumbersPinches();
    SingularizeKeptPinches();
  }

  lemma KeptPinch()
    ensures KeptTokens("pinch") == []
  {
    SingleTokenText("pinch");
    assert "pinch" in MeasureWords;
  }

  /** The whole normaliser is not idempotent: a plural measure word survives
      the measure-word filter and is then singularised into one. */
  lemma NormalizeNotIdempotent()
    ensures NormalizeIngredient("pinches") == "pinch"
    ensures NormalizeIngredient("pinch") == ""
  {
    KeptPinches();
    KeptPinch();
    StripOfTrimmed("pinch");
    StripOfTrimmed("");
  }

  lemma SingularizeNumberPlural()
    ensures Singularize("123s") == "123"
  {
    var t := "123s";
    assert t[1..] == "23s" && t[2..] == "3s" && t[3..] == "s";
  }

  lemma DropNumbersNumberPlural()
    ensures DropNumbers(["123s"]) == ["123s"]
  {
    var t := "123s";
    assert !IsDigit(t[3]);
    assert DropNumbers([t]) == [t] + DropNumbers([]);
  }

  lemma SingularizeKeptNumberPlural()
    ensures SingularizeKept(["123s"]) == ["123"]
  {
    var t := "123s";
    SingularizeNumberPlural();
    assert t !in MeasureWords;
    assert SingularizeKept([t]) == [Singularize(t)] + SingularizeKept([]);
  }

  lemma KeptNumberPlural()
    ensures KeptTokens("123s") == ["123"]
  {
    SingleTokenText("123s");
    DropNumbersNumberPlural();
    SingularizeKeptNumberPlural();
  }

  lemma KeptNumber()
    ensures KeptTokens("123") == []
  {
    SingleTokenText("123");
    assert AllDigits("123");
    assert DropNumbers(["123"]) == DropNumbers([]);
  }

  /** A plural number also breaks idempotence: singularising "123s" leaves
      the number "123", which the digit filter then drops. */
  lemma NormalizeNumberNotIdempotent()
    ensures NormalizeIngredient("123s") == "123"
    ensures NormalizeIngredient("123") == ""
  {
    KeptNumberPlural();
    KeptNumber();
    StripOfTrimmed("123");
    StripOfTrimmed("");
  }
}

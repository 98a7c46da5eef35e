/** The parts of Python's `str` that the core relies on, restricted to ASCII:
    character classes, `lower`, `strip`, `split` with no argument and
    `" ".join`. A character outside ASCII is neither a word character nor
    whitespace here. */
module Text {

  /** `str.isspace` on ASCII: tab, line feed, vertical tab, form feed,
      carriage return, the four separators 0x1C-0x1F and the space. */
  predicate IsSpace(c: char)
  {
    (9 <= c as int <= 13) || (28 <= c as int <= 32)
  }

  predicate IsDigit(c: char) { '0' <= c <= '9' }

  predicate IsUpper(c: char) { 'A' <= c <= 'Z' }

  predicate IsLowerLetter(c: char) { 'a' <= c <= 'z' }

  /** The regular-expression class `\w` on ASCII. */
  predicate IsWordChar(c: char)
  {
    IsDigit(c) || IsUpper(c) || IsLowerLetter(c) || c == '_'
  }

  /** A character a normalized ingredient may hold besides the space. */
  predicate IsTokenChar(c: char)
  {
    IsDigit(c) || IsLowerLetter(c) || c == '_'
  }

  function LowerChar(c: char): (d: char)
    ensures !IsUpper(d)
    ensures IsSpace(d) == IsSpace(c) && IsWordChar(d) == IsWordChar(c)
    ensures !IsUpper(c) ==> d == c
    ensures IsUpper(c) ==> d as int == c as int + 32
  {
    if IsUpper(c) then (c as int + 32) as char else c
  }

  /** `str.lower` on ASCII. */
  function Lower(s: string): string
  {
    seq(|s|, i requires 0 <= i < |s| => LowerChar(s[i]))
  }

  lemma LowerIdempotent(s: string)
    ensures Lower(Lower(s)) == Lower(s)
  {
  }

  /** Every character of s is whitespace. */
  predicate Blank(s: string)
  {
    forall i :: 0 <= i < |s| ==> IsSpace(s[i])
  }

  /** s neither starts nor ends with whitespace. */
  predicate Trimmed(s: string)
  {
    s == [] || (!IsSpace(s[0]) && !IsSpace(s[|s| - 1]))
  }

  /** `str.lstrip` with no argument. */
  function TrimStart(s: string): string
  {
    if s != [] && IsSpace(s[0]) then TrimStart(s[1..]) else s
  }

  /** TrimStart removes a prefix of whitespace and stops at a non-space. */
  lemma {:induction false} TrimStartShape(s: string)
    ensures |TrimStart(s)| <= |s| && TrimStart(s) == s[|s| - |TrimStart(s)|..]
    ensures TrimStart(s) == [] || !IsSpace(TrimStart(s)[0])
    ensures forall i :: 0 <= i < |s| - |TrimStart(s)| ==> IsSpace(s[i])
  {
    if s != [] && IsSpace(s[0]) {
      var t := s[1..];
      TrimStartShape(t);
      assert TrimStart(s) == TrimStart(t);
      assert t[|t| - |TrimStart(t)|..] == s[|s| - |TrimStart(t)|..];
      forall i | 0 <= i < |s| - |TrimStart(s)|
        ensures IsSpace(s[i])
      {
        if i > 0 {
          assert s[i] == t[i - 1];
        }
      }
    }
  }

  /** `str.rstrip` with no argument. */
  function TrimEnd(s: string): string
  {
    if s != [] && IsSpace(s[|s| - 1]) then TrimEnd(s[..|s| - 1]) else s
  }

  /** TrimEnd removes a suffix of whitespace and stops at a non-space. */
  lemma {:induction false} TrimEndShape(s: string)
    ensures |TrimEnd(s)| <= |s| && TrimEnd(s) == s[..|TrimEnd(s)|]
    ensures TrimEnd(s) == [] || !IsSpace(TrimEnd(s)[|TrimEnd(s)| - 1])
    ensures forall i :: |TrimEnd(s)| <= i < |s| ==> IsSpace(s[i])
  {
    if s != [] && IsSpace(s[|s| - 1]) {
      TrimEndShape(s[..|s| - 1]);
    }
  }

  /** `str.strip` with no argument. */
  function Strip(s: string): string
  {
    TrimEnd(TrimStart(s))
  }

  lemma StripShape(s: string)
    ensures Trimmed(Strip(s))
    ensures Strip(s) == [] <==> Blank(s)
  {
    var t := TrimStart(s);
    var r := TrimEnd(t);
    TrimStartShape(s);
    TrimEndShape(t);
    assert r != [] ==> r[0] == t[0];
    assert Blank(s) ==> t == [] by {
      if t != [] { assert t[0] == s[|s| - |t|]; }
    }
  }

  /** `item.strip()` is non-empty: the filter of every list comprehension over user items. */
  predicate HasText(item: string)
  {
    Strip(item) != ""
  }

  lemma StripOfTrimmed(s: string)
    requires Trimmed(s)
    ensures Strip(s) == s
  {
  }

  /** `x.strip().lower()` is stripped and lower-case. */
  lemma LowerStripIsClean(s: string)
    ensures Strip(Lower(Strip(s))) == Lower(Strip(s))
    ensures Lower(Lower(Strip(s))) == Lower(Strip(s))
    ensures Lower(Strip(s)) == [] <==> Blank(s)
  {
    var t := Strip(s);
    StripShape(s);
    assert Trimmed(Lower(t));
    StripOfTrimmed(Lower(t));
    LowerIdempotent(t);
  }

  lemma BlankLower(s: string)
    requires Blank(s)
    ensures Blank(Lower(s))
  {
  }

  /** A non-empty run of non-whitespace characters. */
  predicate IsWord(t: string)
  {
    t != [] && forall i :: 0 <= i < |t| ==> !IsSpace(t[i])
  }

  /** A non-empty run of lower-case letters, digits and underscores. */
  predicate IsToken(t: string)
  {
    t != [] && forall i :: 0 <= i < |t| ==> IsTokenChar(t[i])
  }

  /** The length of the leading run of non-whitespace characters. */
  function WordLength(s: string): (n: nat)
    ensures n <= |s|
    ensures forall i :: 0 <= i < n ==> !IsSpace(s[i])
    ensures n < |s| ==> IsSpace(s[n])
  {
    if s == [] || IsSpace(s[0]) then 0 else 1 + WordLength(s[1..])
  }

  /** `str.split` with no argument: the maximal runs of non-whitespace. */
  function Split(s: string): (ts: seq<string>)
    ensures forall k :: 0 <= k < |ts| ==> IsWord(ts[k])
    decreases |s|
  {
    if s == [] then []
    else if IsSpace(s[0]) then Split(s[1..])
    else
      var n := WordLength(s);
      [s[..n]] + Split(s[n..])
  }

  /** Every character of every piece of `Split(s)` is a non-space character of s. */
  lemma {:induction false} SplitChars(s: string, k: nat, i: nat)
    requires k < |Split(s)| && i < |Split(s)[k]|
    ensures Split(s)[k][i] in s
    decreases |s|
  {
    if s != [] {
      if IsSpace(s[0]) {
        SplitChars(s[1..], k, i);
      } else {
        var n := WordLength(s);
        if k > 0 {
          SplitChars(s[n..], k - 1, i);
        } else {
          assert Split(s)[0] == s[..n];
        }
      }
    }
  }

  /** Splitting a blank string gives no pieces. */
  lemma {:induction false} SplitBlank(s: string)
    requires Blank(s)
    ensures Split(s) == []
    decreases |s|
  {
    if s != [] {
      SplitBlank(s[1..]);
    }
  }

  /** `" ".join(ts)` */
  function Join(ts: seq<string>): string
  {
    if ts == [] then ""
    else if |ts| == 1 then ts[0]
    else ts[0] + " " + Join(ts[1..])
  }

  /** The shape `" ".join` gives a list of tokens: only token characters
      and single spaces, with no space at either end. */
  ghost predicate Canonical(s: string)
  {
    && (forall i :: 0 <= i < |s| ==> IsTokenChar(s[i]) || s[i] == ' ')
    && Trimmed(s)
    && (forall i, j :: 0 <= i < j < |s| && j == i + 1 ==> s[i] != ' ' || s[j] != ' ')
  }

  lemma {:induction false} WordLengthOfToken(t: string, rest: string)
    requires forall i :: 0 <= i < |t| ==> !IsSpace(t[i])
    requires rest == [] || IsSpace(rest[0])
    ensures WordLength(t + rest) == |t|
  {
    if t != [] {
      assert (t + rest)[1..] == t[1..] + rest;
      WordLengthOfToken(t[1..], rest);
    }
  }

  /** Splitting a joined list of words gives the list back. */
  lemma {:induction false} SplitJoin(ts: seq<string>)
    requires forall k :: 0 <= k < |ts| ==> IsWord(ts[k])
    ensures Split(Join(ts)) == ts
  {
    if |ts| == 1 {
      var t := ts[0];
      WordLengthOfToken(t, []);
      assert t + [] == t;
      assert t[..|t|] == t && t[|t|..] == [];
    } else if |ts| > 1 {
      var t, j := ts[0], Join(ts[1..]);
      var s := t + " " + j;
      WordLengthOfToken(t, " " + j);
      assert s == t + (" " + j);
      assert s[..|t|] == t;
      assert s[|t|..] == " " + j;
      assert (" " + j)[1..] == j;
      SplitJoin(ts[1..]);
    }
  }

  /** Joining tokens gives a canonical string. */
  lemma {:induction false} JoinCanonical(ts: seq<string>)
    requires forall k :: 0 <= k < |ts| ==> IsToken(ts[k])
    ensures Canonical(Join(ts))
    ensures ts != [] ==> Join(ts) != [] && IsTokenChar(Join(ts)[0])
    ensures ts != [] ==> IsTokenChar(Join(ts)[|Join(ts)| - 1])
  {
    if |ts| > 1 {
      var t, j := ts[0], Join(ts[1..]);
      JoinCanonical(ts[1..]);
      var s := t + " " + j;
      assert |s| == |t| + 1 + |j|;
      forall i | 0 <= i < |s|
        ensures IsTokenChar(s[i]) || s[i] == ' '
      {
        if i < |t| {
          assert s[i] == t[i];
        } else if i > |t| {
          assert s[i] == j[i - |t| - 1];
        }
      }
      forall i, k | 0 <= i < k < |s| && k == i + 1
        ensures s[i] != ' ' || s[k] != ' '
      {
        if i < |t| {
          assert s[i] == t[i];
        } else if i == |t| {
          assert s[k] == j[0];
        } else {
          assert s[i] == j[i - |t| - 1] && s[k] == j[k - |t| - 1];
        }
      }
      assert s[0] == t[0];
      assert s[|s| - 1] == j[|j| - 1];
    }
  }
}

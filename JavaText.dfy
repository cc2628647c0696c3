/**
 * The few pieces of java.lang.String, java.util.regex.Pattern and StringUtil
 * that the index reader relies on, for the case it uses them in: a literal
 * one-character separator.
 */
module JavaText {

  /** String.indexOf(c): the first position of c in s, or -1. */
  function IndexOf(s: string, c: char): (i: int)
    ensures -1 <= i < |s|
    ensures i == -1 <==> c !in s
    ensures 0 <= i ==> s[i] == c && c !in s[..i]
  {
    if |s| == 0 then -1
    else if s[0] == c then 0
    else
      var j := IndexOf(s[1..], c);
      if j == -1 then -1
      else
        assert s[..j + 1] == [s[0]] + s[1..][..j];
        j + 1
  }

  /** Every piece of s between occurrences of c, empty pieces included. */
  function SplitAll(s: string, c: char): (pieces: seq<string>)
    ensures |pieces| >= 1
    ensures |pieces| == 1 <==> c !in s
    ensures forall k :: 0 <= k < |pieces| ==> c !in pieces[k]
    decreases |s|
  {
    var i := IndexOf(s, c);
    if i == -1 then [s] else [s[..i]] + SplitAll(s[i + 1..], c)
  }

  /** StringUtil.join(sep, xs): the items with sep between neighbours. */
  function Join(sep: string, xs: seq<string>): string
  {
    if |xs| == 0 then ""
    else if |xs| == 1 then xs[0]
    else xs[0] + sep + Join(sep, xs[1..])
  }

  /** Removes the empty strings at the end of xs, as Pattern.split does with limit 0. */
  function DropTrailingEmpty(xs: seq<string>): (r: seq<string>)
    ensures r <= xs
    ensures r == [] || r[|r| - 1] != ""
    ensures forall k :: |r| <= k < |xs| ==> xs[k] == ""
  {
    if |xs| == 0 then []
    else if xs[|xs| - 1] == "" then DropTrailingEmpty(xs[..|xs| - 1])
    else xs
  }

  /**
   * Pattern.split(s) for a pattern that matches exactly the character c:
   * an input without a match comes back whole (so "" gives [""]); otherwise
   * the pieces between matches, with trailing empty pieces dropped.
   */
  function PatternSplit(s: string, c: char): (columns: seq<string>)
    ensures c !in s ==> columns == [s]
    ensures forall k :: 0 <= k < |columns| ==> c !in columns[k]
    ensures c in s ==> columns <= SplitAll(s, c)
    ensures c in s ==> columns == [] || columns[|columns| - 1] != ""
    ensures c in s ==> forall k :: |columns| <= k < |SplitAll(s, c)| ==> SplitAll(s, c)[k] == ""
  {
    if c !in s then [s] else DropTrailingEmpty(SplitAll(s, c))
  }

  /** Joining one more item in front adds it and one separator. */
  lemma JoinCons(sep: string, x: string, xs: seq<string>)
    requires |xs| >= 1
    ensures Join(sep, [x] + xs) == x + sep + Join(sep, xs)
  {
    assert ([x] + xs)[1..] == xs;
  }

  /** A non-empty sequence is its head followed by its tail. */
  lemma HeadTail<T>(xs: seq<T>)
    requires |xs| > 0
    ensures xs == [xs[0]] + xs[1..]
  {
  }

  /** A string is what lies before position i, the character at i, and what follows. */
  lemma SliceAround(s: string, i: int)
    requires 0 <= i < |s|
    ensures s == s[..i] + [s[i]] + s[i + 1..]
  {
  }

  /** The parts of a + [c] + b can be read back by position. */
  lemma ConcatParts(a: string, c: char, b: string)
    ensures (a + [c] + b)[..|a|] == a
    ensures (a + [c] + b)[|a|] == c
    ensures (a + [c] + b)[|a| + 1..] == b
  {
  }

  /** The position of the first c is the one before which no c occurs. */
  lemma IndexOfIs(s: string, c: char, i: int)
    requires 0 <= i < |s| && s[i] == c && c !in s[..i]
    ensures IndexOf(s, c) == i
  {
  }

  /** Where the separator occurs, the pieces are what precedes it, then the pieces of the rest. */
  lemma SplitAllAt(s: string, c: char)
    requires c in s
    ensures SplitAll(s, c) == [s[..IndexOf(s, c)]] + SplitAll(s[IndexOf(s, c) + 1..], c)
  {
  }

  /** Joining the pieces back with the separator gives the input again. */
  lemma {:induction false} JoinSplitAll(s: string, c: char)
    ensures Join([c], SplitAll(s, c)) == s
    decreases |s|
  {
    var i := IndexOf(s, c);
    if i != -1 {
      var rest := s[i + 1..];
      var pieces := SplitAll(rest, c);
      SplitAllAt(s, c);
      JoinSplitAll(rest, c);
      JoinCons([c], s[..i], pieces);
      SliceAround(s, i);
    }
  }

  /** Splitting a join of separator-free items gives back the items. */
  lemma {:induction false} SplitAllJoin(xs: seq<string>, c: char)
    requires |xs| >= 1
    requires forall k :: 0 <= k < |xs| ==> c !in xs[k]
    ensures SplitAll(Join([c], xs), c) == xs
  {
    if |xs| > 1 {
      var tail := Join([c], xs[1..]);
      SplitAllJoin(xs[1..], c);
      var s := Join([c], xs);
      assert s == xs[0] + [c] + tail;
      ConcatParts(xs[0], c, tail);
      IndexOfIs(s, c, |xs[0]|);
      assert SplitAll(s, c) == [xs[0]] + SplitAll(tail, c);
      HeadTail(xs);
    }
  }

  /** Pattern.split yields no column at all exactly for a non-empty run of separators. */
  lemma PatternSplitEmpty(s: string, c: char)
    ensures PatternSplit(s, c) == [] <==> (s != "" && forall k :: 0 <= k < |s| ==> s[k] == c)
  {
    if c in s {
      var pieces := SplitAll(s, c);
      var r := DropTrailingEmpty(pieces);
      if forall k :: 0 <= k < |s| ==> s[k] == c {
        SeparatorsGiveEmptyPieces(s, c);
      } else {
        if r == [] {
          EmptyPiecesGiveSeparators(s, c);
        }
      }
    } else if s != "" {
      assert s[0] != c;
    }
  }

  /** A string made only of separators splits into empty pieces. */
  lemma {:induction false} SeparatorsGiveEmptyPieces(s: string, c: char)
    requires forall k :: 0 <= k < |s| ==> s[k] == c
    ensures forall k :: 0 <= k < |SplitAll(s, c)| ==> SplitAll(s, c)[k] == ""
    decreases |s|
  {
    if s != "" {
      IndexOfIs(s, c, 0);
      var rest := s[1..];
      forall k | 0 <= k < |rest| ensures rest[k] == c {
        assert rest[k] == s[k + 1];
      }
      SeparatorsGiveEmptyPieces(rest, c);
      assert SplitAll(s, c) == [s[..0]] + SplitAll(rest, c);
    }
  }

  /** A string whose pieces are all empty is made only of separators. */
  lemma {:induction false} EmptyPiecesGiveSeparators(s: string, c: char)
    requires forall k :: 0 <= k < |SplitAll(s, c)| ==> SplitAll(s, c)[k] == ""
    ensures forall k :: 0 <= k < |s| ==> s[k] == c
    decreases |s|
  {
    var i := IndexOf(s, c);
    if i == -1 {
      assert SplitAll(s, c)[0] == s;
    } else {
      SplitAllAt(s, c);
      AllEmptyCons(s[..i], SplitAll(s[i + 1..], c));
      EmptyPiecesGiveSeparators(s[i + 1..], c);
      SeparatorsCons(s, c);
    }
  }

  /** Items all empty with one more in front: the front one and the rest are all empty. */
  lemma AllEmptyCons(x: string, xs: seq<string>)
    requires forall k :: 0 <= k < |[x] + xs| ==> ([x] + xs)[k] == ""
    ensures x == "" && forall k :: 0 <= k < |xs| ==> xs[k] == ""
  {
    assert ([x] + xs)[0] == x;
    forall k | 0 <= k < |xs| ensures xs[k] == "" {
      assert ([x] + xs)[k + 1] == xs[k];
    }
  }

  /** A separator followed by separators only is separators only. */
  lemma SeparatorsCons(s: string, c: char)
    requires |s| > 0 && s[0] == c
    requires forall k :: 0 <= k < |s[1..]| ==> s[1..][k] == c
    ensures forall k :: 0 <= k < |s| ==> s[k] == c
  {
    forall k | 0 < k < |s| ensures s[k] == c {
      assert s[k] == s[1..][k - 1];
    }
  }

  /** Splitting never brings in a character the input does not hold. */
  lemma {:induction false} SplitAllKeepsOut(s: string, c: char, d: char)
    requires d !in s
    ensures forall k :: 0 <= k < |SplitAll(s, c)| ==> d !in SplitAll(s, c)[k]
    decreases |s|
  {
    var i := IndexOf(s, c);
    if i != -1 {
      var rest := s[i + 1..];
      SliceKeepsOut(s, d, i + 1, |s|);
      SliceKeepsOut(s, d, 0, i);
      SplitAllKeepsOut(rest, c, d);
      SplitAllAt(s, c);
      ConsKeepsOut(s[..i], SplitAll(rest, c), d);
    }
  }

  /** One more item without d in front of items without d. */
  lemma ConsKeepsOut(x: string, xs: seq<string>, d: char)
    requires d !in x
    requires forall k :: 0 <= k < |xs| ==> d !in xs[k]
    ensures forall k :: 0 <= k < |[x] + xs| ==> d !in ([x] + xs)[k]
  {
    forall k | 0 <= k < |[x] + xs| ensures d !in ([x] + xs)[k] {
      if k > 0 {
        assert ([x] + xs)[k] == xs[k - 1];
      }
    }
  }

  /** A slice holds no character that the whole string does not hold. */
  lemma SliceKeepsOut(s: string, d: char, lo: int, hi: int)
    requires d !in s && 0 <= lo <= hi <= |s|
    ensures d !in s[lo..hi]
  {
    forall k | 0 <= k < hi - lo ensures s[lo..hi][k] != d {
      assert s[lo..hi][k] == s[lo + k];
    }
  }

  /** Every column of a split avoids the characters its input avoids. */
  lemma PatternSplitKeepsOut(s: string, c: char, d: char)
    requires d !in s
    ensures forall k :: 0 <= k < |PatternSplit(s, c)| ==> d !in PatternSplit(s, c)[k]
  {
    SplitAllKeepsOut(s, c, d);
  }

  /**
   * Pattern.split of a join returns the items, provided none holds the
   * separator and the join does not end in an empty item.
   */
  lemma PatternSplitJoin(xs: seq<string>, c: char)
    requires |xs| >= 1
    requires forall k :: 0 <= k < |xs| ==> c !in xs[k]
    requires |xs| == 1 || xs[|xs| - 1] != ""
    ensures PatternSplit(Join([c], xs), c) == xs
  {
    SplitAllJoin(xs, c);
  }
}

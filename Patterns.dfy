/**
 * The pattern builders of the JavaScript index reader: generic-array
 * normalisation of owning-type names, and the patterns that select member
 * and type records.
 */
module Patterns {
  import opened JavaText
  import opened SymbolIndex

  /** The prefix of a parameterised array type name, as in "Array<Number>". */
  const GENERIC_ARRAY_OPEN := "Array<"

  /** The bare array type name that every parameterised array is reduced to. */
  const ARRAY_TYPE := "Array"

  /**
   * stripGenericsFromType: the index keeps one member set for all arrays,
   * so any "Array<...>" name is looked up as the bare array type.
   */
  function StripGenericsFromType(typeName: string): (r: string)
    ensures GENERIC_ARRAY_OPEN <= typeName ==> r == ARRAY_TYPE
    ensures !(GENERIC_ARRAY_OPEN <= typeName) ==> r == typeName
    ensures !(GENERIC_ARRAY_OPEN <= r)
    ensures r == "" <==> typeName == ""
  {
    if GENERIC_ARRAY_OPEN <= typeName then ARRAY_TYPE else typeName
  }

  /**
   * Pattern.quote for a name without the character pair backslash-E:
   * the name between the literal-quotation markers.
   */
  function Quote(s: string): (q: string)
    ensures |q| == |s| + 4
    ensures q[..2] == "\\Q" && q[|q| - 2..] == "\\E"
    ensures q[2..|q| - 2] == s
  {
    "\\Q" + s + "\\E"
  }

  /** Each name quoted, in order. */
  function QuoteAll(names: seq<string>): seq<string>
  {
    seq(|names|, k requires 0 <= k < |names| => Quote(names[k]))
  }

  /** Each name normalised by StripGenericsFromType, in order. */
  function StripAll(names: seq<string>): seq<string>
  {
    seq(|names|, k requires 0 <= k < |names| => StripGenericsFromType(names[k]))
  }

  /**
   * getUserTypesPattern: the quoted names as one parenthesised regular
   * expression alternation. Callers pass a non-empty list.
   */
  function UserTypesPattern(owningTypes: seq<string>): (p: string)
    ensures |p| >= 2 && p[0] == '(' && p[|p| - 1] == ')'
  {
    "(" + Join("|", QuoteAll(owningTypes)) + ")"
  }

  /**
   * getUserTypesPattern: quotes each owning type in turn into a new list,
   * then joins the list with bars between parentheses.
   */
  method GetUserTypesPattern(owningTypes: seq<string>) returns (p: string)
    ensures p == UserTypesPattern(owningTypes)
  {
    var quotedOwningTypes: seq<string> := [];
    for i := 0 to |owningTypes|
      invariant quotedOwningTypes == QuoteAll(owningTypes[..i])
    {
      quotedOwningTypes := quotedOwningTypes + [Quote(owningTypes[i])];
    }
    assert owningTypes[..|owningTypes|] == owningTypes;
    p := "(" + Join("|", quotedOwningTypes) + ")";
  }

  /**
   * getMemberPattern(typeNames): the alternation of the normalised names,
   * anchored at the start of the word and closed by the delimiter, so that
   * only a whole leading owner field can match.
   */
  function MemberPatternForTypes(typeNames: seq<string>): (p: string)
    ensures |p| >= 4 && p[0] == '^' && p[|p| - 1] == DELIMITER
    ensures p[1..|p| - 1] == UserTypesPattern(StripAll(typeNames))
  {
    "^" + UserTypesPattern(StripAll(typeNames)) + [DELIMITER]
  }

  /**
   * The prefix of every record of one type (the pattern getType sends):
   * the normalised name followed by the delimiter.
   */
  function TypePattern(typeName: string): (p: string)
    ensures |p| >= 1 && p[|p| - 1] == DELIMITER
    ensures p[..|p| - 1] == StripGenericsFromType(typeName)
  {
    StripGenericsFromType(typeName) + [DELIMITER]
  }

  /**
   * getMemberPattern(typeName, memberName): the literal prefix of one
   * member's records, owner field and member field both closed by the
   * delimiter. It extends the type's own prefix.
   */
  function MemberPattern(typeName: string, memberName: string): (p: string)
    ensures TypePattern(typeName) <= p
    ensures |p| == |TypePattern(typeName)| + |memberName| + 1
    ensures p[|TypePattern(typeName)|..|p| - 1] == memberName
    ensures p[|p| - 1] == DELIMITER
  {
    TypePattern(typeName) + memberName + [DELIMITER]
  }

  /** Quoting loses nothing: different names give different quoted forms. */
  lemma QuoteInjective(a: string, b: string)
    ensures Quote(a) == Quote(b) ==> a == b
  {
  }

  /** A normalised name holds the delimiter only if the name itself does. */
  lemma StripKeepsOut(typeName: string, c: char)
    requires c !in typeName
    requires c !in ARRAY_TYPE
    ensures c !in StripGenericsFromType(typeName)
  {
  }

  /** Normalising names brings in no character that neither they nor the array type hold. */
  lemma StripAllKeepsOut(names: seq<string>, c: char)
    requires forall k :: 0 <= k < |names| ==> c !in names[k]
    requires c !in ARRAY_TYPE
    ensures forall k :: 0 <= k < |StripAll(names)| ==> c !in StripAll(names)[k]
  {
    forall k | 0 <= k < |names| ensures c !in StripAll(names)[k] {
      StripKeepsOut(names[k], c);
    }
  }

  /** Quoting names brings in no character other than the markers' own. */
  lemma QuoteAllKeepsOut(names: seq<string>, c: char)
    requires forall k :: 0 <= k < |names| ==> c !in names[k]
    requires c != '\\' && c != 'Q' && c != 'E'
    ensures forall k :: 0 <= k < |QuoteAll(names)| ==> c !in QuoteAll(names)[k]
  {
    forall k | 0 <= k < |names| ensures c !in QuoteAll(names)[k] {
      assert QuoteAll(names)[k] == "\\Q" + names[k] + "\\E";
    }
  }

  /**
   * The alternation has one alternative per owning type, in the order of the
   * list: splitting between the parentheses at the bars gives back the
   * quoted names (for names without a bar of their own).
   */
  lemma UserTypesAlternatives(owningTypes: seq<string>)
    requires |owningTypes| >= 1
    requires forall k :: 0 <= k < |owningTypes| ==> '|' !in owningTypes[k]
    ensures var p := UserTypesPattern(owningTypes);
            SplitAll(p[1..|p| - 1], '|') == QuoteAll(owningTypes)
  {
    var quoted := QuoteAll(owningTypes);
    QuoteAllKeepsOut(owningTypes, '|');
    SplitAllJoin(quoted, '|');
    var p := UserTypesPattern(owningTypes);
    assert p[1..|p| - 1] == Join("|", quoted);
  }

  /** Two owning-type lists that give the same alternation are the same list. */
  lemma UserTypesPatternInjective(a: seq<string>, b: seq<string>)
    requires |a| >= 1 && |b| >= 1
    requires forall k :: 0 <= k < |a| ==> '|' !in a[k]
    requires forall k :: 0 <= k < |b| ==> '|' !in b[k]
    requires UserTypesPattern(a) == UserTypesPattern(b)
    ensures a == b
  {
    UserTypesAlternatives(a);
    UserTypesAlternatives(b);
    assert QuoteAll(a) == QuoteAll(b);
    forall k | 0 <= k < |a| ensures a[k] == b[k] {
      assert QuoteAll(a)[k] == QuoteAll(b)[k];
      QuoteInjective(a[k], b[k]);
    }
  }

  /**
   * The list-form member pattern is the anchor, a group of alternatives and
   * the delimiter, and the alternatives are one quoted normalised name per
   * owning type, in order: splitting the group's inside at the bars gives
   * them back (for names without a bar of their own).
   */
  lemma MemberPatternForTypesAlternatives(typeNames: seq<string>)
    requires |typeNames| >= 1
    requires forall k :: 0 <= k < |typeNames| ==> '|' !in typeNames[k]
    ensures var alternatives := QuoteAll(StripAll(typeNames));
            MemberPatternForTypes(typeNames) == "^(" + Join("|", alternatives) + ")" + [DELIMITER] &&
            SplitAll(Join("|", alternatives), '|') == alternatives
  {
    StripAllKeepsOut(typeNames, '|');
    QuoteAllKeepsOut(StripAll(typeNames), '|');
    SplitAllJoin(QuoteAll(StripAll(typeNames)), '|');
    MemberPatternForTypesShape(typeNames);
  }

  /** The list-form member pattern written out as anchor, group and delimiter. */
  lemma MemberPatternForTypesShape(typeNames: seq<string>)
    ensures MemberPatternForTypes(typeNames)
            == "^(" + Join("|", QuoteAll(StripAll(typeNames))) + ")" + [DELIMITER]
  {
    var inside := Join("|", QuoteAll(StripAll(typeNames)));
    assert "^" + ("(" + inside + ")") + [DELIMITER] == "^(" + inside + ")" + [DELIMITER];
  }

  /** The member pattern of a one-owner list is the one quoted, normalised owner as the group. */
  lemma MemberPatternForOneType(typeName: string)
    ensures MemberPatternForTypes([typeName])
            == "^(" + Quote(StripGenericsFromType(typeName)) + ")" + [DELIMITER]
  {
    var quoted := Quote(StripGenericsFromType(typeName));
    MemberPatternForTypesShape([typeName]);
    assert StripAll([typeName]) == [StripGenericsFromType(typeName)];
    assert QuoteAll(StripAll([typeName])) == [quoted];
  }

  /**
   * Splitting the single-member pattern at the delimiter gives back the
   * normalised owner, the member name and the empty rest after the final
   * delimiter (for names without a delimiter of their own).
   */
  lemma MemberPatternFields(typeName: string, memberName: string)
    requires DELIMITER !in typeName && DELIMITER !in memberName
    ensures SplitAll(MemberPattern(typeName, memberName), DELIMITER)
            == [StripGenericsFromType(typeName), memberName, ""]
  {
    var owner := StripGenericsFromType(typeName);
    StripKeepsOut(typeName, DELIMITER);
    var fields := [owner, memberName, ""];
    assert forall k :: 0 <= k < |fields| ==> DELIMITER !in fields[k];
    SplitAllJoin(fields, DELIMITER);
    var tail := Join([DELIMITER], [memberName, ""]);
    assert tail == memberName + [DELIMITER] by {
      assert [memberName, ""][1..] == [""];
      assert Join([DELIMITER], [""]) == "";
      assert memberName + [DELIMITER] + "" == memberName + [DELIMITER];
    }
    assert Join([DELIMITER], fields) == owner + [DELIMITER] + tail by {
      assert fields[1..] == [memberName, ""];
    }
    MemberPatternParts(typeName, memberName);
  }

  /** The single-member pattern as owner, delimiter, and member closed by the delimiter. */
  lemma MemberPatternParts(typeName: string, memberName: string)
    ensures MemberPattern(typeName, memberName)
            == StripGenericsFromType(typeName) + [DELIMITER] + (memberName + [DELIMITER])
  {
  }

  /** The single-member pattern determines the normalised owner and the member. */
  lemma MemberPatternInjective(t1: string, m1: string, t2: string, m2: string)
    requires DELIMITER !in t1 && DELIMITER !in m1
    requires DELIMITER !in t2 && DELIMITER !in m2
    requires MemberPattern(t1, m1) == MemberPattern(t2, m2)
    ensures StripGenericsFromType(t1) == StripGenericsFromType(t2) && m1 == m2
  {
    MemberPatternFields(t1, m1);
    MemberPatternFields(t2, m2);
  }
}

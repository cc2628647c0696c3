/**
 * Decoding of type records. A type record's word is
 * name, DELIMITER, parent types joined by SUB_DELIMITER, DELIMITER, description;
 * fields at the end may be missing.
 */
module Decoder {
  import opened Wrappers
  import opened JavaText
  import opened SymbolIndex
  import opened Elements

  /**
   * What createType makes of a record, or None where it throws: a word made
   * only of delimiters splits into no column at all, and reading the name
   * column then fails. The parent-type column is split further only if it
   * exists, the description is set only if its column exists, and the
   * documents are copied in order.
   */
  function DecodeType(record: QueryResult): (d: Option<TypeRecord>)
    ensures d.None? <==> record.word != "" && forall k :: 0 <= k < |record.word| ==> record.word[k] == DELIMITER
    ensures d.Some? ==> d.value.documents == record.documents
    ensures d.Some? ==> DELIMITER !in d.value.name
    ensures d.Some? ==> forall k :: 0 <= k < |d.value.parentTypes| ==>
              DELIMITER !in d.value.parentTypes[k] && SUB_DELIMITER !in d.value.parentTypes[k]
    ensures d.Some? && d.value.description.Some? ==> DELIMITER !in d.value.description.value
    ensures d.Some? && DELIMITER in record.word ==> d.value.name == record.word[..IndexOf(record.word, DELIMITER)]
    ensures DELIMITER !in record.word ==> d == Some(TypeRecord(record.word, [], None, record.documents))
  {
    PatternSplitEmpty(record.word, DELIMITER);
    var columns := PatternSplit(record.word, DELIMITER);
    if |columns| == 0 then None
    else
      PatternSplitKeepsOut(if 1 < |columns| then columns[1] else "", SUB_DELIMITER, DELIMITER);
      var parentTypes := if 1 < |columns| then PatternSplit(columns[1], SUB_DELIMITER) else [];
      var description := if 2 < |columns| then Some(columns[2]) else None;
      Some(TypeRecord(columns[0], parentTypes, description, record.documents))
  }

  /** The word the index writer stores for a type with every field present. */
  function EncodeType(name: string, parentTypes: seq<string>, description: string): string
  {
    name + [DELIMITER] + Join([SUB_DELIMITER], parentTypes) + [DELIMITER] + description
  }

  /** An encoded type word is the join of its three columns. */
  lemma EncodeTypeColumns(name: string, parentTypes: seq<string>, description: string)
    ensures EncodeType(name, parentTypes, description)
            == Join([DELIMITER], [name, Join([SUB_DELIMITER], parentTypes), description])
  {
    var parents := Join([SUB_DELIMITER], parentTypes);
    JoinCons([DELIMITER], parents, [description]);
    JoinCons([DELIMITER], name, [parents, description]);
    assert [name] + [parents, description] == [name, parents, description];
    assert [parents] + [description] == [parents, description];
    assert name + [DELIMITER] + (parents + [DELIMITER] + description)
           == name + [DELIMITER] + parents + [DELIMITER] + description;
  }

  /**
   * Decoding inverts the writer's encoding: a record written with a name,
   * one or more parent types and a description decodes to exactly those,
   * with the record's documents.
   */
  lemma DecodeEncodeType(name: string, parentTypes: seq<string>, description: string, documents: seq<string>)
    requires DELIMITER !in name && DELIMITER !in description && description != ""
    requires |parentTypes| >= 1
    requires forall k :: 0 <= k < |parentTypes| ==>
               DELIMITER !in parentTypes[k] && SUB_DELIMITER !in parentTypes[k]
    requires |parentTypes| == 1 || parentTypes[|parentTypes| - 1] != ""
    ensures DecodeType(QueryResult(EncodeType(name, parentTypes, description), documents))
            == Some(TypeRecord(name, parentTypes, Some(description), documents))
  {
    var parents := Join([SUB_DELIMITER], parentTypes);
    JoinKeepsOut(parentTypes, SUB_DELIMITER, DELIMITER);
    var columns := [name, parents, description];
    EncodeTypeColumns(name, parentTypes, description);
    PatternSplitJoin(columns, DELIMITER);
    PatternSplitJoin(parentTypes, SUB_DELIMITER);
  }

  /**
   * A record whose description column is missing decodes with no
   * description: the trailing empty column is dropped by the split.
   */
  lemma DecodeTypeWithoutDescription(name: string, parentTypes: seq<string>, documents: seq<string>)
    requires DELIMITER !in name
    requires |parentTypes| >= 1
    requires forall k :: 0 <= k < |parentTypes| ==>
               DELIMITER !in parentTypes[k] && SUB_DELIMITER !in parentTypes[k]
    requires parentTypes[|parentTypes| - 1] != ""
    ensures DecodeType(QueryResult(EncodeType(name, parentTypes, ""), documents))
            == Some(TypeRecord(name, parentTypes, None, documents))
  {
    var parents := Join([SUB_DELIMITER], parentTypes);
    JoinKeepsOut(parentTypes, SUB_DELIMITER, DELIMITER);
    JoinLastNonEmpty(parentTypes, [SUB_DELIMITER]);
    EncodeTypeColumns(name, parentTypes, "");
    SplitAllJoin([name, parents, ""], DELIMITER);
    var pieces := SplitAll(EncodeType(name, parentTypes, ""), DELIMITER);
    assert pieces == [name, parents, ""];
    assert DropTrailingEmpty(pieces) == [name, parents] by {
      assert pieces[..2] == [name, parents];
    }
    PatternSplitJoin(parentTypes, SUB_DELIMITER);
  }

  /** A join of items without c holds no c, if the separator is not c either. */
  lemma {:induction false} JoinKeepsOut(xs: seq<string>, sep: char, c: char)
    requires sep != c
    requires forall k :: 0 <= k < |xs| ==> c !in xs[k]
    ensures c !in Join([sep], xs)
  {
    if |xs| > 1 {
      JoinKeepsOut(xs[1..], sep, c);
    }
  }

  /** A join ends in its last item, so it is non-empty when that item is. */
  lemma {:induction false} JoinLastNonEmpty(xs: seq<string>, sep: string)
    requires |xs| >= 1 && xs[|xs| - 1] != ""
    ensures Join(sep, xs) != ""
  {
    if |xs| > 1 {
      JoinLastNonEmpty(xs[1..], sep);
    }
  }

  /**
   * A type written with no parent types and no description is its name
   * followed by two delimiters; both trailing empty columns are dropped, so
   * it decodes to the bare name. The name must be non-empty: two delimiters
   * alone split into no column.
   */
  lemma DecodeTypeNameOnly(name: string, documents: seq<string>)
    requires DELIMITER !in name && name != ""
    ensures DecodeType(QueryResult(EncodeType(name, [], ""), documents))
            == Some(TypeRecord(name, [], None, documents))
  {
    var word := EncodeType(name, [], "");
    EncodeTypeColumns(name, [], "");
    SplitAllJoin([name, "", ""], DELIMITER);
    assert SplitAll(word, DELIMITER) == [name, "", ""];
    assert DropTrailingEmpty([name, "", ""]) == [name] by {
      assert [name, "", ""][..2] == [name, ""];
      assert [name, ""][..1] == [name];
    }
    assert DELIMITER in word by {
      assert word[|name|] == DELIMITER;
    }
  }

  /**
   * A type written with no parent types but with a description has an
   * empty parent-type column (two delimiters in a row). Splitting "" gives
   * [""], so createType calls addParentType once, with the empty string.
   */
  lemma DecodeTypeEmptyParents(name: string, description: string, documents: seq<string>)
    requires DELIMITER !in name && DELIMITER !in description && description != ""
    ensures DecodeType(QueryResult(EncodeType(name, [], description), documents))
            == Some(TypeRecord(name, [""], Some(description), documents))
  {
    EncodeTypeColumns(name, [], description);
    PatternSplitJoin([name, "", description], DELIMITER);
  }

  /**
   * createType: a fresh type element holding what DecodeType gives, with
   * no members yet; null where createType throws.
   */
  method CreateType(record: QueryResult) returns (t: TypeElement?)
    ensures t == null <==> DecodeType(record).None?
    ensures t != null ==> fresh(t) && t.Header() == DecodeType(record).value
    ensures t != null ==> t.properties == [] && t.events == [] && !t.serializeProperties
  {
    var columns := PatternSplit(record.word, DELIMITER);
    if |columns| == 0 {
      // the name column does not exist: ArrayIndexOutOfBoundsException
      PatternSplitEmpty(record.word, DELIMITER);
      return null;
    }
    t := new TypeElement();

    // name
    t.SetName(columns[0]);

    // super types
    if 1 < |columns| {
      AddParentTypes(t, PatternSplit(columns[1], SUB_DELIMITER));
    }

    // description
    if 2 < |columns| {
      t.SetDescription(columns[2]);
    }

    // documents
    AddDocuments(t, record.documents);
  }

  /** The parent-type loop of createType: addParentType for each, in order. */
  method AddParentTypes(t: TypeElement, parentTypes: seq<string>)
    modifies t`parentTypes
    ensures t.parentTypes == old(t.parentTypes) + parentTypes
  {
    ghost var parentTypes0 := t.parentTypes;
    for i := 0 to |parentTypes|
      invariant t.parentTypes == parentTypes0 + parentTypes[..i]
    {
      t.AddParentType(parentTypes[i]);
    }
    assert parentTypes[..|parentTypes|] == parentTypes;
  }

  /** The document loop of createType: addDocument for each, in order. */
  method AddDocuments(t: TypeElement, documents: seq<string>)
    modifies t`documents
    ensures t.documents == old(t.documents) + documents
  {
    ghost var documents0 := t.documents;
    for i := 0 to |documents|
      invariant t.documents == documents0 + documents[..i]
    {
      t.AddDocument(documents[i]);
    }
    assert documents[..|documents|] == documents;
  }
}

/**
 * The query side of the JavaScript index reader: per-category member
 * queries, member attachment, the type queries, type names and requires.
 */
module Reader {
  import opened Wrappers
  import opened JavaText
  import opened SymbolIndex
  import opened Patterns
  import opened Elements
  import opened Decoder

  /** The category tag a member query is restricted to. */
  function Tag(kind: MemberKind): Category
  {
    match kind
    case Property => PropertyTag
    case Function => FunctionTag
    case Event => EventTag
  }

  /**
   * createEvent / createFunction / createProperty: a new element of the
   * given kind, populated from one record.
   */
  function Populate(kind: MemberKind, record: QueryResult): (e: MemberElement)
    ensures e.kind == kind
    ensures QueryResult(e.word, e.documents) == record
  {
    MemberElement(kind, record.word, record.documents)
  }

  /** Elements of one kind determine the record they were populated from. */
  lemma PopulateInjective(kind: MemberKind, a: QueryResult, b: QueryResult)
    ensures Populate(kind, a) == Populate(kind, b) <==> a == b
  {
    assert QueryResult(Populate(kind, a).word, Populate(kind, a).documents) == a;
    assert QueryResult(Populate(kind, b).word, Populate(kind, b).documents) == b;
  }

  /** One element per record, in record order (CollectionsUtil.map). */
  function PopulateAll(kind: MemberKind, records: seq<QueryResult>): (r: seq<MemberElement>)
    ensures |r| == |records|
    ensures forall k :: 0 <= k < |r| ==>
              r[k].kind == kind && r[k].word == records[k].word && r[k].documents == records[k].documents
  {
    seq(|records|, k requires 0 <= k < |records| => Populate(kind, records[k]))
  }

  /** Mapping two runs of records maps each run in turn. */
  lemma PopulateAllAppend(kind: MemberKind, a: seq<QueryResult>, b: seq<QueryResult>)
    ensures PopulateAll(kind, a + b) == PopulateAll(kind, a) + PopulateAll(kind, b)
  {
    var r := PopulateAll(kind, a + b);
    var s := PopulateAll(kind, a) + PopulateAll(kind, b);
    forall k | 0 <= k < |r| ensures r[k] == s[k] {
      if k < |a| {
        assert (a + b)[k] == a[k];
      } else {
        assert (a + b)[k] == b[k - |a|];
      }
    }
  }

  /** The elements of one kind determine the records they were mapped from. */
  lemma PopulateAllInjective(kind: MemberKind, a: seq<QueryResult>, b: seq<QueryResult>)
    requires PopulateAll(kind, a) == PopulateAll(kind, b)
    ensures a == b
  {
    forall k | 0 <= k < |a| ensures a[k] == b[k] {
      assert PopulateAll(kind, a)[k] == PopulateAll(kind, b)[k];
    }
  }

  // ---------------------------------------------------------------------
  // Member queries

  /**
   * getEvents / getFunctions / getProperties (index, owningTypes): nothing
   * without an index or owning types; otherwise one element of the query's
   * kind per record matched by the anchored alternation of the owning
   * types, in the order the index answers them.
   */
  function GetMembers(index: Option<Index>, kind: MemberKind, owningTypes: Option<seq<string>>): (r: seq<MemberElement>)
    ensures index.None? || owningTypes.None? || owningTypes.value == [] ==> r == []
    ensures index.Some? && owningTypes.Some? && owningTypes.value != [] ==>
              var records := Answers(index.value, Tag(kind), MemberPatternForTypes(owningTypes.value), RegexMatch);
              |r| == |records| &&
              forall k :: 0 <= k < |r| ==> r[k].word == records[k].word && r[k].documents == records[k].documents
    ensures forall k :: 0 <= k < |r| ==> r[k].kind == kind
  {
    if index.Some? && owningTypes.Some? && owningTypes.value != [] then
      PopulateAll(kind, Answers(index.value, Tag(kind), MemberPatternForTypes(owningTypes.value), RegexMatch))
    else
      []
  }

  /**
   * getEvents / getFunctions / getProperties (index, owningType): the list
   * form with a one-element list.
   */
  function GetMembersOfType(index: Option<Index>, kind: MemberKind, owningType: string): (r: seq<MemberElement>)
    ensures index.Some? ==>
              |r| == |Answers(index.value, Tag(kind), MemberPatternForTypes([owningType]), RegexMatch)|
    ensures index.None? ==> r == []
  {
    GetMembers(index, kind, Some([owningType]))
  }

  /**
   * The single-owner form sends the group of the one quoted normalised owner,
   * anchored and closed by the delimiter; an empty name is not short-circuited.
   */
  lemma MembersOfTypeQuery(index: Option<Index>, kind: MemberKind, owningType: string)
    ensures index.None? ==> GetMembersOfType(index, kind, owningType) == []
    ensures index.Some? ==>
              var pattern := "^(" + Quote(StripGenericsFromType(owningType)) + ")" + [DELIMITER];
              GetMembersOfType(index, kind, owningType)
              == PopulateAll(kind, Answers(index.value, Tag(kind), pattern, RegexMatch))
    ensures forall k :: 0 <= k < |GetMembersOfType(index, kind, owningType)| ==>
              GetMembersOfType(index, kind, owningType)[k].kind == kind
  {
    MemberPatternForOneType(owningType);
  }

  /**
   * getEvents / getFunctions / getProperties (index, owningType, name):
   * nothing without an index, an owning type and a member name; otherwise
   * one element per record whose word starts, case-sensitively, with the
   * member pattern of that owner and name.
   */
  function GetMembersNamed(index: Option<Index>, kind: MemberKind, owningType: string, memberName: string): (r: seq<MemberElement>)
    ensures index.None? || owningType == "" || memberName == "" ==> r == []
    ensures index.Some? && owningType != "" && memberName != "" ==>
              var records := Answers(index.value, Tag(kind), MemberPattern(owningType, memberName), PrefixMatch(true));
              |r| == |records| &&
              forall k :: 0 <= k < |r| ==> r[k].word == records[k].word && r[k].documents == records[k].documents
    ensures forall k :: 0 <= k < |r| ==> r[k].kind == kind
  {
    if index.Some? && owningType != "" && memberName != "" then
      PopulateAll(kind, Answers(index.value, Tag(kind), MemberPattern(owningType, memberName), PrefixMatch(true)))
    else
      []
  }

  /**
   * The property collection a type gets from the index: its properties
   * first, then its functions.
   */
  function TypeProperties(index: Option<Index>, typeName: string): seq<MemberElement>
  {
    GetMembersOfType(index, Property, typeName) + GetMembersOfType(index, Function, typeName)
  }

  /** The event collection a type gets from the index. */
  function TypeEvents(index: Option<Index>, typeName: string): seq<MemberElement>
  {
    GetMembersOfType(index, Event, typeName)
  }

  /**
   * A type's property collection holds its properties, then its functions,
   * and no event; its event collection holds events only.
   */
  lemma TypeMembersKinds(index: Option<Index>, typeName: string)
    ensures var properties := GetMembersOfType(index, Property, typeName);
            var r := TypeProperties(index, typeName);
            |r| == |properties| + |GetMembersOfType(index, Function, typeName)| &&
            forall k :: 0 <= k < |r| ==> (r[k].kind == Property <==> k < |properties|) && r[k].kind != Event
    ensures forall k :: 0 <= k < |TypeEvents(index, typeName)| ==> TypeEvents(index, typeName)[k].kind == Event
  {
    var properties := GetMembersOfType(index, Property, typeName);
    var functions := GetMembersOfType(index, Function, typeName);
    MembersOfTypeQuery(index, Property, typeName);
    MembersOfTypeQuery(index, Function, typeName);
    MembersOfTypeQuery(index, Event, typeName);
    var r := TypeProperties(index, typeName);
    forall k | 0 <= k < |r| ensures (r[k].kind == Property <==> k < |properties|) && r[k].kind != Event {
      if k < |properties| {
        assert r[k] == properties[k];
      } else {
        assert r[k] == functions[k - |properties|];
      }
    }
  }

  /**
   * getTypeProperties: the type's properties followed by its functions,
   * built by appending the functions to the property list.
   */
  method GetTypeProperties(index: Option<Index>, typeName: string) returns (properties: seq<MemberElement>)
    ensures properties == TypeProperties(index, typeName)
    ensures index.None? ==> properties == []
  {
    properties := GetMembersOfType(index, Property, typeName);
    properties := properties + GetMembersOfType(index, Function, typeName);
    if index.None? {
      NoIndexNoMembers(typeName);
    }
  }

  /** Without an index a type has no members at all. */
  lemma NoIndexNoMembers(typeName: string)
    ensures TypeProperties(None, typeName) == [] && TypeEvents(None, typeName) == []
  {
    MembersOfTypeQuery(None, Property, typeName);
    MembersOfTypeQuery(None, Function, typeName);
    MembersOfTypeQuery(None, Event, typeName);
  }

  // ---------------------------------------------------------------------
  // Member attachment

  /** One loop of attachMembers: addProperty for each member, in order. */
  method AddProperties(t: TypeElement, members: seq<MemberElement>)
    modifies t`properties
    ensures t.properties == old(t.properties) + members
  {
    ghost var properties0 := t.properties;
    for i := 0 to |members|
      invariant t.properties == properties0 + members[..i]
    {
      t.AddProperty(members[i]);
    }
    assert members[..|members|] == members;
  }

  /** The event loop of attachMembers: addEvent for each event, in order. */
  method AddEvents(t: TypeElement, members: seq<MemberElement>)
    modifies t`events
    ensures t.events == old(t.events) + members
  {
    ghost var events0 := t.events;
    for i := 0 to |members|
      invariant t.events == events0 + members[..i]
    {
      t.AddEvent(members[i]);
    }
    assert members[..|members|] == members;
  }

  /**
   * attachMembers: nothing happens without a type or an index. Otherwise the
   * type's properties, then its functions, are appended to its property
   * collection and its events to its event collection; nothing else changes.
   */
  method AttachMembers(t: TypeElement?, index: Option<Index>)
    modifies t
    ensures t != null ==>
              t.properties == old(t.properties) + TypeProperties(index, old(t.name)) &&
              t.events == old(t.events) + TypeEvents(index, old(t.name))
    ensures t != null && index.None? ==>
              t.properties == old(t.properties) && t.events == old(t.events)
    ensures t != null ==>
              t.Header() == old(t.Header()) && t.serializeProperties == old(t.serializeProperties)
  {
    if t != null {
      if index.Some? {
        AttachIndexMembers(t, index);
      } else {
        NoIndexNoMembers(t.name);
        assert t.properties + [] == t.properties && t.events + [] == t.events;
      }
    }
  }

  /** The members branch of attachMembers, for a type and an index. */
  method AttachIndexMembers(t: TypeElement, index: Option<Index>)
    requires index.Some?
    modifies t`properties, t`events
    ensures t.properties == old(t.properties) + TypeProperties(index, t.name)
    ensures t.events == old(t.events) + TypeEvents(index, t.name)
  {
    var typeName := t.name;
    ghost var properties0 := t.properties;
    var properties := GetMembersOfType(index, Property, typeName);
    var functions := GetMembersOfType(index, Function, typeName);

    // properties
    AddProperties(t, properties);

    // functions
    AddProperties(t, functions);
    assert t.properties == properties0 + (properties + functions);

    // events
    AddEvents(t, GetMembersOfType(index, Event, typeName));
  }


  // ---------------------------------------------------------------------
  // Type names

  /** The part of a type word before its first delimiter, if it has one. */
  function TypeName(word: string): (name: Option<string>)
    ensures name.None? <==> DELIMITER !in word
    ensures name.Some? ==> DELIMITER !in name.value && name.value + [DELIMITER] <= word
  {
    var i := IndexOf(word, DELIMITER);
    if i == -1 then None
    else
      assert word[..i + 1] == word[..i] + [DELIMITER];
      Some(word[..i])
  }

  /** The names getTypeNames lists for the given records, in record order. */
  function TypeNames(records: seq<QueryResult>): (names: seq<string>)
    ensures |names| <= |records|
    ensures forall k :: 0 <= k < |names| ==> DELIMITER !in names[k]
  {
    if records == [] then []
    else
      var last := records[|records| - 1];
      TypeNames(records[..|records| - 1]) +
      (match TypeName(last.word) case None => [] case Some(n) => [n])
  }

  /**
   * getTypeNames: for every type record, in order, the word up to its
   * first delimiter; a record without a delimiter is skipped.
   */
  method GetTypeNames(index: Option<Index>) returns (result: seq<string>)
    ensures index.None? ==> result == []
    ensures index.Some? ==> result == TypeNames(Answers(index.value, TypeTag, MATCH_ALL, PatternMatch))
    ensures forall k :: 0 <= k < |result| ==> DELIMITER !in result[k]
  {
    result := [];
    if index.Some? {
      var types := Answers(index.value, TypeTag, MATCH_ALL, PatternMatch);
      for i := 0 to |types|
        invariant result == TypeNames(types[..i])
      {
        var word := types[i].word;
        var delimiterIndex := IndexOf(word, DELIMITER);
        if delimiterIndex != -1 {
          result := result + [word[..delimiterIndex]];
        }
        assert types[..i + 1][..i] == types[..i];
      }
      assert types[..|types|] == types;
    }
  }

  /** Listing the names of two runs of records lists each run's names in turn. */
  lemma {:induction false} TypeNamesAppend(a: seq<QueryResult>, b: seq<QueryResult>)
    ensures TypeNames(a + b) == TypeNames(a) + TypeNames(b)
    decreases |b|
  {
    if b != [] {
      var front := b[..|b| - 1];
      TypeNamesAppend(a, front);
      assert (a + b)[..|a + b| - 1] == a + front;
      assert (a + b)[|a + b| - 1] == b[|b| - 1];
    } else {
      assert a + b == a;
    }
  }

  /** A name is listed exactly when some record's word starts with it and a delimiter. */
  lemma TypeNamesSource(records: seq<QueryResult>, n: string)
    ensures n in TypeNames(records) <==> exists k :: 0 <= k < |records| && TypeName(records[k].word) == Some(n)
  {
    if n in TypeNames(records) {
      TypeNamesFrom(records, n);
    }
    if exists k :: 0 <= k < |records| && TypeName(records[k].word) == Some(n) {
      var k :| 0 <= k < |records| && TypeName(records[k].word) == Some(n);
      TypeNamesListed(records, k);
    }
  }

  /** Every record whose word has a delimiter contributes its name. */
  lemma {:induction false} TypeNamesListed(records: seq<QueryResult>, k: int)
    requires 0 <= k < |records| && TypeName(records[k].word).Some?
    ensures TypeName(records[k].word).value in TypeNames(records)
  {
    var front := records[..|records| - 1];
    var n := TypeName(records[k].word).value;
    if k == |records| - 1 {
      assert TypeNames(records) == TypeNames(front) + [n];
    } else {
      assert front[k] == records[k];
      TypeNamesListed(front, k);
      assert TypeNames(records)[..|TypeNames(front)|] == TypeNames(front);
    }
  }

  /** Every listed name comes from some record's word. */
  lemma {:induction false} TypeNamesFrom(records: seq<QueryResult>, n: string)
    requires n in TypeNames(records)
    ensures exists k :: 0 <= k < |records| && TypeName(records[k].word) == Some(n)
  {
    var front := records[..|records| - 1];
    var last := records[|records| - 1];
    if n in TypeNames(front) {
      TypeNamesFrom(front, n);
      var k :| 0 <= k < |front| && TypeName(front[k].word) == Some(n);
      assert records[k] == front[k];
    } else {
      assert TypeName(last.word) == Some(n);
    }
  }

  /**
   * A delimiter-free name closed by the delimiter is a prefix of a word
   * exactly when it is the word's name field: the closing delimiter keeps
   * "Foo" from selecting "FooBar".
   */
  lemma NamePrefix(name: string, word: string)
    requires DELIMITER !in name
    ensures name + [DELIMITER] <= word <==> TypeName(word) == Some(name)
  {
    if name + [DELIMITER] <= word {
      assert word[..|name|] == name;
      assert word[|name|] == DELIMITER;
      IndexOfIs(word, DELIMITER, |name|);
    }
  }

  /**
   * The type prefix getType sends selects exactly the words whose name
   * field is the normalised type name.
   */
  lemma TypePrefixSelectsName(typeName: string, word: string)
    requires DELIMITER !in typeName
    ensures TypePattern(typeName) <= word <==> TypeName(word) == Some(StripGenericsFromType(typeName))
  {
    StripKeepsOut(typeName, DELIMITER);
    NamePrefix(StripGenericsFromType(typeName), word);
  }

  /**
   * The single-member prefix selects exactly the words whose owner field is
   * the normalised owner and whose member field is the member name.
   */
  lemma MemberPrefixSelectsFields(typeName: string, memberName: string, word: string)
    requires DELIMITER !in typeName && DELIMITER !in memberName
    ensures MemberPattern(typeName, memberName) <= word <==>
              TypeName(word) == Some(StripGenericsFromType(typeName)) &&
              TypeName(word[|TypePattern(typeName)|..]) == Some(memberName)
  {
    var prefix := TypePattern(typeName);
    TypePrefixSelectsName(typeName, word);
    assert MemberPattern(typeName, memberName) == prefix + (memberName + [DELIMITER]);
    if prefix <= word {
      var rest := word[|prefix|..];
      NamePrefix(memberName, rest);
      assert word == prefix + rest;
      PrefixConcat(prefix, memberName + [DELIMITER], rest);
    }
  }

  /** Extending a prefix of a word: p + q is a prefix of p + r exactly when q is a prefix of r. */
  lemma PrefixConcat(p: string, q: string, r: string)
    ensures p + q <= p + r <==> q <= r
  {
    if p + q <= p + r {
      assert q == (p + q)[|p|..] && r[..|q|] == (p + r)[|p|..|p| + |q|];
    }
    if q <= r {
      assert (p + r)[..|p| + |q|] == p + r[..|q|];
    }
  }

  /**
   * The name getTypeNames lists for a record is the name createType decodes
   * from it, whenever it decodes.
   */
  lemma TypeNameIsDecodedName(record: QueryResult)
    requires TypeName(record.word).Some? && DecodeType(record).Some?
    ensures DecodeType(record).value.name == TypeName(record.word).value
  {
  }

  // ---------------------------------------------------------------------
  // Requires

  /**
   * The require records of one location (getQueryResultsForLocation): those
   * whose documents include it, in order.
   */
  function ForLocation(records: seq<QueryResult>, location: string): (selected: seq<QueryResult>)
    ensures |selected| <= |records|
    ensures forall k :: 0 <= k < |selected| ==> location in selected[k].documents
  {
    if records == [] then []
    else
      var last := records[|records| - 1];
      ForLocation(records[..|records| - 1], location) + (if location in last.documents then [last] else [])
  }

  /** Every module path the given require records name. */
  function RequirePaths(records: seq<QueryResult>): set<string>
  {
    if records == [] then {}
    else
      var paths := PatternSplit(records[|records| - 1].word, SUB_DELIMITER);
      RequirePaths(records[..|records| - 1]) + (set p | p in paths)
  }

  /** A path is required exactly when some record's word lists it. */
  lemma {:induction false} RequirePathsSource(records: seq<QueryResult>, p: string)
    ensures p in RequirePaths(records) <==>
            exists k :: 0 <= k < |records| && p in PatternSplit(records[k].word, SUB_DELIMITER)
  {
    if records != [] {
      var front := records[..|records| - 1];
      RequirePathsSource(front, p);
      if exists k :: 0 <= k < |front| && p in PatternSplit(front[k].word, SUB_DELIMITER) {
        var k :| 0 <= k < |front| && p in PatternSplit(front[k].word, SUB_DELIMITER);
        assert records[k] == front[k];
      }
      if exists k :: 0 <= k < |records| && p in PatternSplit(records[k].word, SUB_DELIMITER) {
        var k :| 0 <= k < |records| && p in PatternSplit(records[k].word, SUB_DELIMITER);
        if k < |front| {
          assert front[k] == records[k];
        }
      }
    }
  }

  /** A record is selected for a location exactly when its documents include it. */
  lemma {:induction false} ForLocationSource(records: seq<QueryResult>, location: string, r: QueryResult)
    ensures r in ForLocation(records, location) <==> r in records && location in r.documents
  {
    if records != [] {
      ForLocationSource(records[..|records| - 1], location, r);
      assert records == records[..|records| - 1] + [records[|records| - 1]];
    }
  }

  /**
   * The paths of a location are exactly those listed by a require record
   * that names the location among its documents.
   */
  lemma LocationRequires(records: seq<QueryResult>, location: string, p: string)
    ensures p in RequirePaths(ForLocation(records, location)) <==>
            exists r :: r in records && location in r.documents && p in PatternSplit(r.word, SUB_DELIMITER)
  {
    var selected := ForLocation(records, location);
    RequirePathsSource(selected, p);
    if p in RequirePaths(selected) {
      var k :| 0 <= k < |selected| && p in PatternSplit(selected[k].word, SUB_DELIMITER);
      ForLocationSource(records, location, selected[k]);
    }
    if exists r :: r in records && location in r.documents && p in PatternSplit(r.word, SUB_DELIMITER) {
      var r :| r in records && location in r.documents && p in PatternSplit(r.word, SUB_DELIMITER);
      ForLocationSource(records, location, r);
      var k :| 0 <= k < |selected| && selected[k] == r;
    }
  }

  /**
   * getRequires: the module paths that the require records of the given
   * location list, each once, in no particular order; nothing without an
   * index.
   */
  method GetRequires(index: Option<Index>, location: string) returns (result: seq<string>)
    ensures index.None? ==> result == []
    ensures index.Some? ==>
              forall p :: p in result <==>
                p in RequirePaths(ForLocation(Answers(index.value, RequireTag, MATCH_ALL, PatternMatch), location))
    ensures forall i, j :: 0 <= i < j < |result| ==> result[i] != result[j]
  {
    var paths: set<string> := {};
    if index.Some? {
      var requireRecords := Answers(index.value, RequireTag, MATCH_ALL, PatternMatch);
      var selected := ForLocation(requireRecords, location);
      for i := 0 to |selected|
        invariant paths == RequirePaths(selected[..i])
      {
        paths := AddPaths(paths, PatternSplit(selected[i].word, SUB_DELIMITER));
        RequirePathsNext(selected, i);
      }
      assert selected[..|selected|] == selected;
    }

    result := ListOf(paths);
  }

  /** The inner loop of getRequires: every path of one record added to the set. */
  method AddPaths(paths: set<string>, split: seq<string>) returns (result: set<string>)
    ensures forall p :: p in result <==> p in paths || p in split
  {
    result := paths;
    for j := 0 to |split|
      invariant forall p :: p in result <==> p in paths || p in split[..j]
    {
      result := result + {split[j]};
      assert split[..j + 1] == split[..j] + [split[j]];
    }
    assert split[..|split|] == split;
  }

  /** Taking one more record adds the paths its word lists. */
  lemma RequirePathsNext(records: seq<QueryResult>, i: int)
    requires 0 <= i < |records|
    ensures RequirePaths(records[..i + 1])
            == RequirePaths(records[..i]) + (set p | p in PatternSplit(records[i].word, SUB_DELIMITER))
  {
    assert records[..i + 1][..i] == records[..i];
  }

  /** new ArrayList(set): the set's elements, each once, in some order. */
  method ListOf(paths: set<string>) returns (result: seq<string>)
    ensures forall p :: p in result <==> p in paths
    ensures forall i, j :: 0 <= i < j < |result| ==> result[i] != result[j]
    ensures paths == {} ==> result == []
  {
    result := [];
    var rest := paths;
    while rest != {}
      invariant forall p :: p in paths <==> p in result || p in rest
      invariant paths == {} ==> result == [] && rest == {}
      invariant forall k :: 0 <= k < |result| ==> result[k] !in rest
      invariant forall i, j :: 0 <= i < j < |result| ==> result[i] != result[j]
      decreases |rest|
    {
      var p :| p in rest;
      result := result + [p];
      rest := rest - {p};
    }
  }

  // ---------------------------------------------------------------------
  // Types

  /**
   * A type element assembled from a record: the decoded header, and, when
   * members are included, the members of its decoded name and the
   * serialize flag set; otherwise no members and the flag clear.
   */
  ghost predicate Assembled(t: TypeElement, record: QueryResult, index: Option<Index>, includeMembers: bool)
    reads t
  {
    && DecodeType(record).Some?
    && t.Header() == DecodeType(record).value
    && t.serializeProperties == includeMembers
    && t.properties == (if includeMembers then TypeProperties(index, t.name) else [])
    && t.events == (if includeMembers then TypeEvents(index, t.name) else [])
  }

  /** One distinct type element per record, each assembled from its record. */
  ghost predicate AssembledFrom(types: seq<TypeElement>, records: seq<QueryResult>, index: Option<Index>, includeMembers: bool)
    reads types
  {
    && |types| == |records|
    && (forall k :: 0 <= k < |types| ==> Assembled(types[k], records[k], index, includeMembers))
    && (forall i, j :: 0 <= i < j < |types| ==> types[i] != types[j])
  }

  /** One more distinct element assembled from one more record keeps the correspondence. */
  lemma AssembledFromSnoc(types: seq<TypeElement>, records: seq<QueryResult>, t: TypeElement, record: QueryResult,
                          index: Option<Index>, includeMembers: bool)
    requires AssembledFrom(types, records, index, includeMembers)
    requires Assembled(t, record, index, includeMembers) && t !in types
    ensures AssembledFrom(types + [t], records + [record], index, includeMembers)
  {
    var types' := types + [t];
    var records' := records + [record];
    forall k | 0 <= k < |types'| ensures Assembled(types'[k], records'[k], index, includeMembers) {
      if k < |types| {
        assert types'[k] == types[k] && records'[k] == records[k];
      }
    }
  }

  /** Records that elements were assembled from all decode. */
  lemma AllDecodable(types: seq<TypeElement>, records: seq<QueryResult>, index: Option<Index>, includeMembers: bool)
    requires AssembledFrom(types, records, index, includeMembers)
    ensures !SomeUndecodable(records)
  {
    forall k | 0 <= k < |records| ensures DecodeType(records[k]).Some? {
      assert Assembled(types[k], records[k], index, includeMembers);
    }
  }

  /** Some record has no name column, so createType throws on it. */
  ghost predicate SomeUndecodable(records: seq<QueryResult>)
  {
    exists k :: 0 <= k < |records| && DecodeType(records[k]).None?
  }

  /**
   * The body of the loop of getType and getTypes: createType on the record
   * and, when asked for, attachMembers and the serialize flag; null where
   * createType throws.
   */
  method AssembleType(index: Option<Index>, record: QueryResult, includeMembers: bool) returns (t: TypeElement?)
    ensures t == null <==> DecodeType(record).None?
    ensures t != null ==> fresh(t) && Assembled(t, record, index, includeMembers)
  {
    t := CreateType(record);
    if t != null && includeMembers {
      AttachMembers(t, index);
      // make sure the type can be serialized back in case it is modified
      t.SetSerializeProperties(true);
    }
  }

  /**
   * One step of that loop: the element assembled from the next record added
   * at the end of those assembled so far, or None where createType throws.
   */
  method AppendAssembled(index: Option<Index>, record: QueryResult, includeMembers: bool,
                         ghost records: seq<QueryResult>, result: seq<TypeElement>)
    returns (next: Option<seq<TypeElement>>)
    requires AssembledFrom(result, records, index, includeMembers)
    ensures next.None? <==> DecodeType(record).None?
    ensures next.Some? ==> AssembledFrom(next.value, records + [record], index, includeMembers)
    ensures next.Some? ==> exists t :: next.value == result + [t] && fresh(t)
  {
    var t := AssembleType(index, record, includeMembers);
    if t == null {
      return None;
    }
    AssembledFromSnoc(result, records, t, record, index, includeMembers);
    next := Some(result + [t]);
  }

  /**
   * The loop shared by getType and getTypes: a fresh type element per
   * record, in order; the first record createType throws on ends the whole
   * call.
   */
  method AssembleTypes(index: Option<Index>, records: seq<QueryResult>, includeMembers: bool)
    returns (o: Outcome<seq<TypeElement>>)
    ensures o.Threw? <==> SomeUndecodable(records)
    ensures o.Returned? ==> AssembledFrom(o.value, records, index, includeMembers)
    ensures o.Returned? ==> forall t :: t in o.value ==> fresh(t)
  {
    var result: seq<TypeElement> := [];
    for i := 0 to |records|
      invariant forall t :: t in result ==> fresh(t)
      invariant AssembledFrom(result, records[..i], index, includeMembers)
    {
      var next := AppendAssembled(index, records[i], includeMembers, records[..i], result);
      if next.None? {
        return Threw(ArrayIndexOutOfBounds);
      }
      assert records[..i + 1] == records[..i] + [records[i]];
      result := next.value;
    }
    assert records[..|records|] == records;
    AllDecodable(result, records, index, includeMembers);
    return Returned(result);
  }

  /** The records getType assembles: none without an index or a name. */
  function TypeRecords(index: Option<Index>, typeName: string): seq<QueryResult>
  {
    if index.Some? && typeName != "" then
      Answers(index.value, TypeTag, TypePattern(typeName), PrefixMatch(false))
    else
      []
  }

  /**
   * getType: one type element per type record starting with the
   * normalised name and the delimiter, with no merging of records that
   * share a name; nothing without an index or a name.
   */
  method GetType(index: Option<Index>, typeName: string, includeMembers: bool)
    returns (o: Outcome<seq<TypeElement>>)
    ensures index.None? || typeName == "" ==> o == Returned([])
    ensures o.Threw? <==> SomeUndecodable(TypeRecords(index, typeName))
    ensures o.Returned? ==> AssembledFrom(o.value, TypeRecords(index, typeName), index, includeMembers)
    ensures o.Returned? ==> forall t :: t in o.value ==> fresh(t)
  {
    o := Returned([]);
    if index.Some? && typeName != "" {
      var pattern := TypePattern(typeName);
      var types := index.value.query(TypeTag, pattern, PrefixMatch(false));
      if types.Some? {
        o := AssembleTypes(index, types.value, includeMembers);
      }
    }
  }

  /** The records getTypes assembles: every type record, none without an index. */
  function AllTypeRecords(index: Option<Index>): seq<QueryResult>
  {
    if index.Some? then Answers(index.value, TypeTag, MATCH_ALL, PatternMatch) else []
  }

  /**
   * getTypes: one type element per type record in the index, in order,
   * with no merging; nothing without an index or when the query answers
   * null.
   */
  method GetTypes(index: Option<Index>, includeMembers: bool) returns (o: Outcome<seq<TypeElement>>)
    ensures index.None? ==> o == Returned([])
    ensures index.Some? && index.value.query(TypeTag, MATCH_ALL, PatternMatch).None? ==> o == Returned([])
    ensures o.Threw? <==> SomeUndecodable(AllTypeRecords(index))
    ensures o.Returned? ==> AssembledFrom(o.value, AllTypeRecords(index), index, includeMembers)
    ensures o.Returned? ==> forall t :: t in o.value ==> fresh(t)
  {
    o := Returned([]);
    if index.Some? {
      var types := index.value.query(TypeTag, MATCH_ALL, PatternMatch);
      if types.Some? {
        o := AssembleTypes(index, types.value, includeMembers);
      }
    }
  }
}

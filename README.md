# JavaScript index reader

This project models the read side of Aptana Studio's JavaScript content-assist index, the class
`JSIndexReader`. The index stores JavaScript symbols as category-tagged records. Each record is an
encoded word plus the documents that contributed it. The reader builds query patterns and sends them
to the index. It then decodes the records it gets back into symbol descriptors:
- type elements, which have a name, parent types, a description, documents, and attached
  properties and events;
- property, function and event elements;
- plain type names;
- the module paths required by one source location.

Modules:

- `Wrappers`: `Option`, and `Outcome`, the result of a Java method that can end in an exception.
- `JavaText`: the pieces of `String.indexOf`, `Pattern.split` (limit 0, one-character literal
  separator) and `StringUtil.join` that the reader depends on. It also holds the split/join
  round-trip lemmas.
- `SymbolIndex`: the index as the reader sees it. This means category tags, match modes, records,
  the two delimiters, and an index handle whose engine is any function from (category, pattern,
  mode) to an answer or null.
- `Patterns`: generic-array normalisation of owner names and the pattern builders.
- `Elements`: member elements as values, and the type element as a class whose collections the
  reader fills in place.
- `Decoder`: `createType` (as `DecodeType` and the `CreateType` method) and the encoding it inverts.
- `Reader`: the member queries, `attachMembers`, `getTypeProperties`, `getTypeNames`,
  `getRequires`, `getType` and `getTypes`.

Behaviours of the code a caller might not expect, which the model keeps:

- A type record whose word is non-empty and consists only of delimiters splits into no column at
  all (the empty word splits into [""] and decodes to the name ""). `createType`
  reads the name column without a check, so `getType` and `getTypes` end in an
  `ArrayIndexOutOfBoundsException` rather than skipping that record. This is modelled as
  `Threw(ArrayIndexOutOfBounds)`.
- For a type record with an empty parent-type column (name, delimiter, delimiter, description),
  `createType` calls `addParentType("")` once, because the split of "" is [""]
  (`Decoder.DecodeTypeEmptyParents`). Whether the type element then keeps "" is decided by
  `TypeElement.addParentType`, which is not part of this model. The model keeps it, because its
  adders are plain appends.
- The single-owner member queries do not short-circuit on an empty owner name. They query the
  alternation of the one quoted empty name.

Assumed constants (the files that declare them are not part of this model): the delimiter is `'\0'`,
the sub-delimiter is `','`, the generic array prefix is `"Array<"` and the array type is `"Array"`.
The proofs use only the facts that the two delimiters are distinct single characters and that
`"Array"` contains neither of them and no `'|'`, is non-empty and does not start with `"Array<"`.

## Model

| member | source | states |
|---|---|---|
| Patterns.StripGenericsFromType | plugins/com.aptana.editor.js/src/com/aptana/editor/js/contentassist/index/JSIndexReader.java:365-372 | Any name starting with "Array<" becomes "Array" and every other name stays as it is. The result never starts with "Array<", and it is empty exactly when the input is. |
| Patterns.Quote | plugins/com.aptana.editor.js/src/com/aptana/editor/js/contentassist/index/JSIndexReader.java:660 | A quoted name is the name between the \Q and \E markers: it is four characters longer, and the name can be read back from the middle. |
| Patterns.QuoteInjective | plugins/com.aptana.editor.js/src/com/aptana/editor/js/contentassist/index/JSIndexReader.java:660 | Different names give different quoted forms. |
| Patterns.UserTypesPattern | plugins/com.aptana.editor.js/src/com/aptana/editor/js/contentassist/index/JSIndexReader.java:653-665 | The owning-types pattern is a parenthesised group. |
| Patterns.GetUserTypesPattern | plugins/com.aptana.editor.js/src/com/aptana/editor/js/contentassist/index/JSIndexReader.java:653-665 | The loop that quotes each owning type into a new list, followed by the join, builds exactly UserTypesPattern of the list. |
| Patterns.UserTypesAlternatives | plugins/com.aptana.editor.js/src/com/aptana/editor/js/contentassist/index/JSIndexReader.java:653-665 | For a non-empty list of names without '\|', splitting the inside of the group at the bars gives back the quoted names, one alternative per owning type and in order. |
| Patterns.UserTypesPatternInjective | plugins/com.aptana.editor.js/src/com/aptana/editor/js/contentassist/index/JSIndexReader.java:653-665 | Two non-empty owner lists that give the same pattern are the same list. |
| Patterns.MemberPatternForTypes | plugins/com.aptana.editor.js/src/com/aptana/editor/js/contentassist/index/JSIndexReader.java:332-344 | The list-form member pattern is anchored at the start ('^'), closed by the delimiter, and holds the alternation of the normalised owner names. |
| Patterns.MemberPatternForTypesAlternatives | plugins/com.aptana.editor.js/src/com/aptana/editor/js/contentassist/index/JSIndexReader.java:332-344 | For a non-empty list of names without '\|', the list-form member pattern is '^', a group joining the quoted normalised owner names with bars, and the delimiter. Splitting the join at the bars gives back one alternative per owning type, in list order. |
| Patterns.MemberPatternForOneType | plugins/com.aptana.editor.js/src/com/aptana/editor/js/contentassist/index/JSIndexReader.java:332-344 | A one-owner list gives the group of the single quoted normalised owner, anchored at the start and closed by the delimiter. |
| Patterns.TypePattern | plugins/com.aptana.editor.js/src/com/aptana/editor/js/contentassist/index/JSIndexReader.java:514 | The type prefix that getType sends is the normalised name closed by the delimiter. |
| Patterns.MemberPattern | plugins/com.aptana.editor.js/src/com/aptana/editor/js/contentassist/index/JSIndexReader.java:353-357 | The single-member pattern extends the owner's type prefix with the member name and a closing delimiter. |
| Patterns.MemberPatternFields | plugins/com.aptana.editor.js/src/com/aptana/editor/js/contentassist/index/JSIndexReader.java:353-357 | Splitting the single-member pattern at the delimiter gives [normalised owner, member, ""]. |
| Patterns.MemberPatternInjective | plugins/com.aptana.editor.js/src/com/aptana/editor/js/contentassist/index/JSIndexReader.java:353-357 | The single-member pattern determines both the normalised owner and the member name. |
| JavaText.IndexOf | plugins/com.aptana.editor.js/src/com/aptana/editor/js/contentassist/index/JSIndexReader.java:588 | indexOf gives -1 exactly when the character is absent. Otherwise it gives the position of the character's first occurrence. |
| JavaText.SplitAll | plugins/com.aptana.editor.js/src/com/aptana/editor/js/contentassist/index/JSIndexReader.java:113 | Splitting at every separator gives at least one piece. It gives exactly one piece when the separator is absent, and no piece holds the separator. |
| JavaText.JoinSplitAll | plugins/com.aptana.editor.js/src/com/aptana/editor/js/contentassist/index/JSIndexReader.java:113 | Joining the pieces with the separator gives back the input. |
| JavaText.SplitAllJoin | plugins/com.aptana.editor.js/src/com/aptana/editor/js/contentassist/index/JSIndexReader.java:113 | Splitting a join of separator-free items gives back the items. |
| JavaText.PatternSplit | plugins/com.aptana.editor.js/src/com/aptana/editor/js/contentassist/index/JSIndexReader.java:113 | Pattern.split gives back a word without the separator whole. Otherwise its columns are all the pieces with only the trailing empty ones dropped: they are a prefix of the pieces, the last column is non-empty, and every dropped piece is empty. No column holds the separator. |
| JavaText.PatternSplitEmpty | plugins/com.aptana.editor.js/src/com/aptana/editor/js/contentassist/index/JSIndexReader.java:113-120 | Pattern.split gives no column exactly for a non-empty word made only of separators. That is the input on which reading column 0 fails. |
| JavaText.PatternSplitJoin | plugins/com.aptana.editor.js/src/com/aptana/editor/js/contentassist/index/JSIndexReader.java:113 | Pattern.split inverts a join of separator-free items whose last item is non-empty, or a join of a single item. |
| JavaText.PatternSplitKeepsOut | plugins/com.aptana.editor.js/src/com/aptana/editor/js/contentassist/index/JSIndexReader.java:126 | A column never holds a character that its input does not hold. |
| Decoder.DecodeType | plugins/com.aptana.editor.js/src/com/aptana/editor/js/contentassist/index/JSIndexReader.java:110-147 | Decoding fails exactly on a non-empty word made only of delimiters. A word without a delimiter is a bare name. The name is the text before the first delimiter. No field holds a delimiter, no parent type holds a sub-delimiter, and the documents are copied. |
| Decoder.EncodeTypeColumns | plugins/com.aptana.editor.js/src/com/aptana/editor/js/contentassist/index/JSIndexReader.java:113-136 | An encoded type word is the delimiter-join of its three columns: the name, the sub-delimiter-joined parents and the description. |
| Decoder.DecodeEncodeType | plugins/com.aptana.editor.js/src/com/aptana/editor/js/contentassist/index/JSIndexReader.java:110-147 | Round trip: a type encoded with a name, parents and a non-empty description decodes to exactly those fields and its documents. |
| Decoder.DecodeTypeWithoutDescription | plugins/com.aptana.editor.js/src/com/aptana/editor/js/contentassist/index/JSIndexReader.java:133-138 | When the description column is empty, it is dropped and the type gets no description. |
| Decoder.DecodeTypeNameOnly | plugins/com.aptana.editor.js/src/com/aptana/editor/js/contentassist/index/JSIndexReader.java:113-138 | Round trip for a type written with no parent types and no description: a non-empty, delimiter-free name followed by two delimiters decodes to that name alone, with no parent type, no description and its documents. |
| Decoder.DecodeTypeEmptyParents | plugins/com.aptana.editor.js/src/com/aptana/editor/js/contentassist/index/JSIndexReader.java:113-138 | A type written with no parent types but with a description has an empty parent-type column, and decodes to its name, the single parent type "" (addParentType is called once with "") and its description. |
| Decoder.CreateType | plugins/com.aptana.editor.js/src/com/aptana/editor/js/contentassist/index/JSIndexReader.java:110-147 | createType gives null (standing for the exception) exactly when decoding fails. Otherwise it gives a fresh type element whose header is the decoded record, with no members and the serialize flag clear. |
| Decoder.AddParentTypes | plugins/com.aptana.editor.js/src/com/aptana/editor/js/contentassist/index/JSIndexReader.java:126-129 | The parent-type loop appends the split parent types, in order, and changes nothing else. |
| Decoder.AddDocuments | plugins/com.aptana.editor.js/src/com/aptana/editor/js/contentassist/index/JSIndexReader.java:141-144 | The document loop appends the record's documents, in order, and changes nothing else. |
| Reader.Populate | plugins/com.aptana.editor.js/src/com/aptana/editor/js/contentassist/index/JSIndexReader.java:76-101 | createEvent, createFunction and createProperty give an element of the requested kind that carries its record's word and documents. |
| Reader.PopulateInjective | plugins/com.aptana.editor.js/src/com/aptana/editor/js/contentassist/index/JSIndexReader.java:76-101 | Two elements of one kind are equal exactly when the records they were created from are. |
| Reader.PopulateAll | plugins/com.aptana.editor.js/src/com/aptana/editor/js/contentassist/index/JSIndexReader.java:182-188 | CollectionsUtil.map with a create call gives one element per record, of the requested kind, carrying that record, in record order. The same call appears at 231-237, 266-272, 314-320, 397-403 and 445-451. |
| Reader.PopulateAllAppend | plugins/com.aptana.editor.js/src/com/aptana/editor/js/contentassist/index/JSIndexReader.java:182-188 | Mapping two runs of records gives the mapped runs in turn. |
| Reader.PopulateAllInjective | plugins/com.aptana.editor.js/src/com/aptana/editor/js/contentassist/index/JSIndexReader.java:182-188 | The mapped elements determine the records they were mapped from. |
| Reader.GetMembers | plugins/com.aptana.editor.js/src/com/aptana/editor/js/contentassist/index/JSIndexReader.java:167-191 | With no index, or no or an empty owner list, the result is empty. Otherwise there is one element of the query's kind per record answered for the anchored owner alternation, in answer order. The same shape holds for getFunctions (251-276) and getProperties (382-407). |
| Reader.GetMembersOfType | plugins/com.aptana.editor.js/src/com/aptana/editor/js/contentassist/index/JSIndexReader.java:202-205 | The single-owner getEvents (also getFunctions at 286-289 and getProperties at 417-420) gives nothing without an index. Otherwise it gives one element per record answered for the one-element owner list. |
| Reader.MembersOfTypeQuery | plugins/com.aptana.editor.js/src/com/aptana/editor/js/contentassist/index/JSIndexReader.java:202-205 | The single-owner form of getEvents (and of getFunctions at 286-289 and getProperties at 417-420) gives nothing without an index. Otherwise it queries "^(" + the quoted, normalised owner + ")" + the delimiter as a regular expression, with no empty-name short-circuit, and gives one element of its kind per answer. |
| Reader.GetMembersNamed | plugins/com.aptana.editor.js/src/com/aptana/editor/js/contentassist/index/JSIndexReader.java:216-241 | With no index, owner or member name, the result is empty. Otherwise there is one element per record answered for the case-sensitive member prefix, in order. The same holds for 300-324 and 431-455. |
| Reader.TypeMembersKinds | plugins/com.aptana.editor.js/src/com/aptana/editor/js/contentassist/index/JSIndexReader.java:43-68 | A type's property list is its properties followed by its functions. An element is a property exactly when it lies in the first part, and none is an event. The event list holds only events. |
| Reader.NoIndexNoMembers | plugins/com.aptana.editor.js/src/com/aptana/editor/js/contentassist/index/JSIndexReader.java:46 | Without an index a type gets no properties and no events. |
| Reader.GetTypeProperties | plugins/com.aptana.editor.js/src/com/aptana/editor/js/contentassist/index/JSIndexReader.java:554-561 | getTypeProperties returns the properties then the functions, and nothing without an index. |
| Reader.AddProperties | plugins/com.aptana.editor.js/src/com/aptana/editor/js/contentassist/index/JSIndexReader.java:51-60 | Each loop appends its members to the type's property list, in order. |
| Reader.AddEvents | plugins/com.aptana.editor.js/src/com/aptana/editor/js/contentassist/index/JSIndexReader.java:63-66 | The event loop appends the events to the type's event list, in order. |
| Reader.AttachMembers | plugins/com.aptana.editor.js/src/com/aptana/editor/js/contentassist/index/JSIndexReader.java:43-68 | With a type, its property list gets its properties and then its functions appended, and its event list gets its events appended. Both are empty additions without an index, so nothing changes then. The header and the serialize flag are never touched. |
| Reader.AttachIndexMembers | plugins/com.aptana.editor.js/src/com/aptana/editor/js/contentassist/index/JSIndexReader.java:48-66 | With an index, the three loops change only the property and event lists: the property list gets the properties and then the functions, and the event list gets the events. |
| Reader.TypeName | plugins/com.aptana.editor.js/src/com/aptana/editor/js/contentassist/index/JSIndexReader.java:587-593 | A type word gives a name exactly when it holds a delimiter. The name is delimiter-free and, followed by the delimiter, is a prefix of the word. |
| Reader.TypeNames | plugins/com.aptana.editor.js/src/com/aptana/editor/js/contentassist/index/JSIndexReader.java:583-596 | There is at most one name per record, and no name holds the delimiter. |
| Reader.GetTypeNames | plugins/com.aptana.editor.js/src/com/aptana/editor/js/contentassist/index/JSIndexReader.java:569-600 | getTypeNames lists TypeNames of every type record in order, and nothing without an index or when the query answers null. |
| Reader.TypeNamesAppend | plugins/com.aptana.editor.js/src/com/aptana/editor/js/contentassist/index/JSIndexReader.java:585-596 | The names of two runs of records are each run's names in turn. |
| Reader.TypeNamesSource | plugins/com.aptana.editor.js/src/com/aptana/editor/js/contentassist/index/JSIndexReader.java:585-596 | A name is listed exactly when some record's word gives that name. |
| Reader.TypeNamesListed | plugins/com.aptana.editor.js/src/com/aptana/editor/js/contentassist/index/JSIndexReader.java:585-593 | Every record whose word holds a delimiter contributes its name. |
| Reader.TypeNamesFrom | plugins/com.aptana.editor.js/src/com/aptana/editor/js/contentassist/index/JSIndexReader.java:585-593 | Every listed name comes from some record's word. |
| Reader.NamePrefix | plugins/com.aptana.editor.js/src/com/aptana/editor/js/contentassist/index/JSIndexReader.java:514 | A delimiter-free name followed by the delimiter is a prefix of a word exactly when it is the word's name field, so "Foo" does not select "FooBar". |
| Reader.TypePrefixSelectsName | plugins/com.aptana.editor.js/src/com/aptana/editor/js/contentassist/index/JSIndexReader.java:514 | The prefix getType sends selects exactly the words whose name field is the normalised type name. |
| Reader.MemberPrefixSelectsFields | plugins/com.aptana.editor.js/src/com/aptana/editor/js/contentassist/index/JSIndexReader.java:353-357 | The single-member prefix selects exactly the words whose owner field is the normalised owner and whose next field is the member name. |
| Reader.TypeNameIsDecodedName | plugins/com.aptana.editor.js/src/com/aptana/editor/js/contentassist/index/JSIndexReader.java:587-592 | The name getTypeNames lists for a record is the name createType decodes from it. |
| Reader.ForLocation | plugins/com.aptana.editor.js/src/com/aptana/editor/js/contentassist/index/JSIndexReader.java:478 | The selected require records all name the location among their documents. |
| Reader.ForLocationSource | plugins/com.aptana.editor.js/src/com/aptana/editor/js/contentassist/index/JSIndexReader.java:478 | A record is selected exactly when it is a require record and its documents include the location. |
| Reader.RequirePathsSource | plugins/com.aptana.editor.js/src/com/aptana/editor/js/contentassist/index/JSIndexReader.java:478-484 | A path is collected exactly when some selected record's word lists it. |
| Reader.AddPaths | plugins/com.aptana.editor.js/src/com/aptana/editor/js/contentassist/index/JSIndexReader.java:480-483 | The inner loop adds exactly the paths of one record's word to the set. |
| Reader.LocationRequires | plugins/com.aptana.editor.js/src/com/aptana/editor/js/contentassist/index/JSIndexReader.java:470-484 | The paths of a location are exactly those listed by a require record whose documents include the location. |
| Reader.ListOf | plugins/com.aptana.editor.js/src/com/aptana/editor/js/contentassist/index/JSIndexReader.java:487 | The list holds exactly the set's paths, each once, and it is empty for the empty set. |
| Reader.GetRequires | plugins/com.aptana.editor.js/src/com/aptana/editor/js/contentassist/index/JSIndexReader.java:463-488 | getRequires gives nothing without an index. Otherwise it gives exactly the paths that the location's require records list, with no duplicates. |
| Reader.AssembleType | plugins/com.aptana.editor.js/src/com/aptana/editor/js/contentassist/index/JSIndexReader.java:526-538 | The loop body gives null exactly where createType throws. Otherwise it gives a fresh element with the decoded header, and with includeMembers it also has the type's members and the serialize flag set. |
| Reader.AssembleTypes | plugins/com.aptana.editor.js/src/com/aptana/editor/js/contentassist/index/JSIndexReader.java:524-541 | The loop throws exactly when some record is undecodable. Otherwise it gives one fresh, distinct element per record, in order, each assembled from its record, with no merging. |
| Reader.AppendAssembled | plugins/com.aptana.editor.js/src/com/aptana/editor/js/contentassist/index/JSIndexReader.java:526-538 | One pass of the loop either throws, exactly when the record is undecodable, or appends one fresh element assembled from the record. |
| Reader.GetType | plugins/com.aptana.editor.js/src/com/aptana/editor/js/contentassist/index/JSIndexReader.java:508-544 | getType gives nothing without an index or a name. Otherwise it assembles one element per record answered for the type prefix, and throws exactly when one of them is undecodable. |
| Reader.GetTypes | plugins/com.aptana.editor.js/src/com/aptana/editor/js/contentassist/index/JSIndexReader.java:610-645 | getTypes gives nothing without an index or when the query answers null. Otherwise it assembles one element per type record, and throws exactly when one is undecodable. |

## Left out

- The index engine is not modelled. How prefix, regular-expression and wildcard matching select records is not modelled either. The engine is an arbitrary function from category, pattern and mode to an answer. Which words a literal prefix pattern selects is stated about the patterns (`Reader.TypePrefixSelectsName`, `Reader.MemberPrefixSelectsFields`), not about what the engine answers. The anchored regular expressions of the list-form member queries are stated only as strings (their alternatives), because regular-expression matching is not modelled.
- populateElement is not part of this model. It fills a member element from its record, and a member element here just carries the record's word, its documents and its kind.
- getQueryResultsForLocation is not part of this model. It is modelled as selecting the records whose documents include the location, and the location URI is a string.
- Patterns.Quote: does not model Pattern.quote's extra escaping of names that contain backslash-E.
- Patterns.MemberPatternForTypes: RegexUtil.createQuotedListPattern is not part of this model. It is taken to build the same quoted alternation as getUserTypesPattern.
- The values of IJSIndexConstants and JSTypeConstants are not part of this model. The assumed values are listed above.
- A null answer to a member query or to the require query is read as an empty list. For a member query this is what CollectionsUtil.map of null is taken to give. For the require query, what getQueryResultsForLocation does with null is assumed to be the same.
- StringUtil.isEmpty and CollectionsUtil.isEmpty are not part of this model. They are taken to be true for null or for length zero, so the model tests for `None` or length zero.
- Null strings are not modelled. Null indexes and null owner lists are modelled as `None`.
- Reader.GetRequires: does not state the order of the returned paths. The source collects them in a HashSet, whose iteration order is unspecified.
- StringUtil.join is not part of this model. `JavaText.Join` takes it to put the separator between neighbouring items and to give "" for an empty list. Its meaning is stated by `JavaText.JoinSplitAll` and `JavaText.SplitAllJoin`, and it is used by getUserTypesPattern at JSIndexReader.java line 664.
- MessageFormat is modelled as plain concatenation, because the arguments are strings.
- IOException, logging and concurrency are not modelled. The reader modelled here neither throws the former nor uses the others.
- The internals of TypeElement are not part of this model. Its setters and adders are modelled as plain field updates that append in order and do not de-duplicate.

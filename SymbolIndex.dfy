/**
 * The index engine as the reader sees it: category tags, match modes,
 * the raw records a query returns, and the record delimiters shared with
 * the writer side.
 */
module SymbolIndex {
  import opened Wrappers

  /** The primary field separator of an index word. */
  const DELIMITER: char := '\0'

  /** The separator of list-valued sub-fields (parent types, require paths). */
  const SUB_DELIMITER: char := ','

  /** The category tag a query is restricted to. */
  datatype Category = TypeTag | PropertyTag | FunctionTag | EventTag | RequireTag

  /**
   * How the engine matches a pattern: a literal prefix (optionally
   * case-sensitive), a regular expression, or a wildcard pattern such as "*".
   */
  datatype MatchMode = PrefixMatch(caseSensitive: bool) | RegexMatch | PatternMatch

  /** One matched entry: its encoded word and the documents that contributed it. */
  datatype QueryResult = QueryResult(word: string, documents: seq<string>)

  /**
   * An index handle. The engine is not part of this model: it is any
   * function from a category, a pattern and a match mode to the records it
   * answers, or None where the engine answers null.
   */
  datatype Index = Index(query: (Category, string, MatchMode) -> Option<seq<QueryResult>>)

  /** The records a query answers, with a null answer read as no records. */
  function Answers(index: Index, tag: Category, pattern: string, mode: MatchMode): seq<QueryResult>
  {
    match index.query(tag, pattern, mode)
    case None => []
    case Some(rs) => rs
  }

  /** The pattern that matches every record of a category. */
  const MATCH_ALL := "*"
}

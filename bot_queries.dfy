/** The database helpers of `bot/bot.py` (`fetch_all_authors`,
    `fetch_matching_authors`, `fetch_author_info`). What PostgreSQL answers is an
    input: either the rows of a query or a driver error (`psycopg2.Error`), which
    each helper catches and turns into its "nothing" value. */
module Queries {
  import opened Wrappers

  /** The outcome of one query: its rows, or a database error. */
  datatype Query<T> = Rows(rows: T) | DbError

  /** A row of `SELECT name, birth, bio FROM authors`; `birth` may be NULL. */
  datatype AuthorRecord = AuthorRecord(name: string, birth: Option<string>, bio: string)

  /** The tuple `(full_name, birth, bio, quote)` of `fetch_author_info`. */
  datatype AuthorInfo = AuthorInfo(name: Option<string>, birth: Option<string>,
                                   bio: Option<string>, quote: Option<string>)

  /** What the database answers, as functions of the query parameters: the names
      matching a search (`ILIKE`), the row of an author, and an author's first
      quote (`LIMIT 1`). Row order and matching are the database's. */
  datatype Db = Db(allNames: Query<seq<string>>,
                   matching: string -> Query<seq<string>>,
                   record: string -> Query<Option<AuthorRecord>>,
                   firstQuote: string -> Query<Option<string>>)

  const NoQuote: string := "Цитат не найдено."

  /** `(None, None, None, None)`. */
  const NoInfo: AuthorInfo := AuthorInfo(None, None, None, None)

  /** The list comprehension over `fetchall()`, or `[]` when the query failed: the
      convention of `fetch_all_authors` and `fetch_matching_authors`. */
  function NamesOrEmpty(q: Query<seq<string>>): (names: seq<string>)
    ensures q.DbError? ==> names == []
    ensures q.Rows? ==> names == q.rows
  {
    match q
    case Rows(names) => names
    case DbError => []
  }

  /** `fetch_all_authors()`. */
  function FetchAllAuthors(db: Db): seq<string> {
    NamesOrEmpty(db.allNames)
  }

  /** `fetch_matching_authors(search_query)`. */
  function FetchMatchingAuthors(db: Db, query: string): seq<string> {
    NamesOrEmpty(db.matching(query))
  }

  /** `fetch_author_info(author_name)`: the author's row, then the first quote of
      the name that row holds; a missing row, or a failure of either query, gives
      `(None, None, None, None)`. */
  function FetchAuthorInfo(db: Db, name: string): (info: AuthorInfo)
    ensures info.name.Some? <==>
              db.record(name).Rows? && db.record(name).rows.Some?
              && db.firstQuote(db.record(name).rows.value.name).Rows?
    ensures info.name.None? ==> info == NoInfo
    ensures info.name.Some? ==>
              var r := db.record(name).rows.value;
              && info.name == Some(r.name) && info.birth == r.birth && info.bio == Some(r.bio)
              && info.quote == Some(db.firstQuote(r.name).rows.GetOr(NoQuote))
  {
    match db.record(name)
    case DbError => NoInfo
    case Rows(None) => NoInfo
    case Rows(Some(r)) =>
      match db.firstQuote(r.name)
      case DbError => NoInfo
      case Rows(q) => AuthorInfo(Some(r.name), r.birth, Some(r.bio), Some(q.GetOr(NoQuote)))
  }

  /** The handlers' test `full_name and bio`: both present and non-empty. */
  predicate Found(info: AuthorInfo) {
    info.name.Some? && info.name.value != [] && info.bio.Some? && info.bio.value != []
  }

  /** A missing author and a failed query look the same to the handlers. */
  lemma MissingLikeError(db: Db, name: string)
    requires || db.record(name) == DbError || db.record(name) == Rows(None)
             || (db.record(name).Rows? && db.record(name).rows.Some?
                 && db.firstQuote(db.record(name).rows.value.name) == DbError)
    ensures FetchAuthorInfo(db, name) == NoInfo && !Found(FetchAuthorInfo(db, name))
  {
  }

  /** A found author always has a quote to show: the first one, or the placeholder. */
  lemma FoundHasQuote(db: Db, name: string)
    requires Found(FetchAuthorInfo(db, name))
    ensures FetchAuthorInfo(db, name).quote.Some?
    ensures db.firstQuote(db.record(name).rows.value.name) == Rows(None) ==>
              FetchAuthorInfo(db, name).quote == Some(NoQuote)
  {
  }
}

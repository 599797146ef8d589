/** The writer of `pars/main.py` (`save_to_database`) over an in-memory model of
    its two tables: `authors(id SERIAL, name UNIQUE, bio, birth)` and
    `quotes(id SERIAL, text, author_id REFERENCES authors(id))`.

    Authors are upserted by name (`ON CONFLICT (name) DO UPDATE`); quotes are
    appended one row each, since `ON CONFLICT DO NOTHING` on a table whose only
    unique key is a fresh serial id never finds a conflict. */
module Store {
  import opened Harvester

  /** A row of `authors`, keyed by name in the table map. */
  datatype AuthorRow = AuthorRow(id: int, bio: string, birth: string)

  /** A row of `quotes` (its own serial id is not modelled). */
  datatype QuoteRow = QuoteRow(text: string, authorId: int)

  /** The contents of both tables. */
  datatype Tables = Tables(authors: map<string, AuthorRow>, quotes: seq<QuoteRow>)

  /** The ids of the author rows. */
  function Ids(authors: map<string, AuthorRow>): set<int> {
    set n | n in authors :: authors[n].id
  }

  /** The ids the table gives to the names in `names`, the writer's `author_ids`. */
  function IdsOf(authors: map<string, AuthorRow>, names: set<string>): (ids: map<string, int>)
    requires names <= authors.Keys
    ensures ids.Keys == names
  {
    map n | n in names :: authors[n].id
  }

  /** The rows appended for `quotes`, each pointing at its author's id. */
  function QuoteRows(quotes: seq<Quote>, ids: map<string, int>): (rows: seq<QuoteRow>)
    requires Resolvable(quotes, ids)
    ensures |rows| == |quotes|
  {
    if quotes == [] then []
    else
      var last := quotes[|quotes| - 1];
      QuoteRows(quotes[..|quotes| - 1], ids) + [QuoteRow(last.text, ids[last.author])]
  }

  /** `after` is `before` with every name of `names` upserted from `input`: the row
      exists, carries the new bio and birth, and keeps the id it had; other rows are
      untouched and no other name appears. */
  ghost predicate UpsertedOn(before: map<string, AuthorRow>, input: map<string, AuthorDetails>,
                             names: set<string>, after: map<string, AuthorRow>)
    requires names <= input.Keys
  {
    && after.Keys == before.Keys + names
    && (forall n :: n in names ==> after[n].bio == input[n].bio && after[n].birth == input[n].birth)
    && (forall n :: n in before ==> after[n].id == before[n].id)
    && (forall n :: n in before && n !in names ==> after[n] == before[n])
  }

  ghost predicate Upserted(before: map<string, AuthorRow>, input: map<string, AuthorDetails>,
                           after: map<string, AuthorRow>)
  {
    UpsertedOn(before, input, input.Keys, after)
  }

  /** Every quote names a key of `authors`: `author_ids[author]` cannot fail. */
  predicate Resolvable<V>(quotes: seq<Quote>, authors: map<string, V>) {
    forall i :: 0 <= i < |quotes| ==> quotes[i].author in authors
  }

  /** A successful `save_to_database(quotes, authors)` from `before` to `after`. */
  ghost predicate Saved(before: Tables, quotes: seq<Quote>, authors: map<string, AuthorDetails>, after: Tables)
  {
    && Resolvable(quotes, authors)
    && Upserted(before.authors, authors, after.authors)
    && after.quotes == before.quotes + QuoteRows(quotes, IdsOf(after.authors, authors.Keys))
  }

  class QuoteStore {
    var authors: map<string, AuthorRow>
    /** The next value of the `authors.id` sequence. */
    var nextId: int
    var quotes: seq<QuoteRow>
    /** The name holding each id: the primary-key index of `authors`. */
    ghost var owner: map<int, string>

    /** Ids are positive and below the sequence's next value; each id belongs to
        exactly one name (`owner` is the inverse of the id column); and every quote
        row points at an existing author (the foreign key). */
    ghost predicate Valid()
      reads this
    {
      && nextId >= 1
      && (forall n :: n in authors ==> 1 <= authors[n].id < nextId)
      && (forall n :: n in authors ==> authors[n].id in owner && owner[authors[n].id] == n)
      && (forall x :: x in owner ==> owner[x] in authors && authors[owner[x]].id == x)
      && (forall i :: 0 <= i < |quotes| ==> quotes[i].authorId in owner)
    }

    /** No two authors share an id. */
    lemma IdsUnique()
      requires Valid()
      ensures forall n, m :: n in authors && m in authors && n != m ==> authors[n].id != authors[m].id
    {
    }

    /** The foreign key, stated on the table alone. */
    lemma QuotesReferenceAuthors()
      requires Valid()
      ensures forall i :: 0 <= i < |quotes| ==> quotes[i].authorId in Ids(authors)
    {
      forall i | 0 <= i < |quotes|
        ensures quotes[i].authorId in Ids(authors)
      {
        assert authors[owner[quotes[i].authorId]].id == quotes[i].authorId;
      }
    }

    function Contents(): Tables
      reads this
    {
      Tables(authors, quotes)
    }

    constructor ()
      ensures Valid()
      ensures authors == map[] && quotes == [] && nextId == 1
    {
      authors, quotes, nextId := map[], [], 1;
      owner := map[];
    }

    /** `INSERT ... ON CONFLICT (name) DO UPDATE SET bio, birth RETURNING id`.
        The sequence value is drawn before the conflict is detected, so it is
        consumed even when the name exists. */
    method UpsertAuthor(name: string, bio: string, birth: string) returns (id: int)
      requires Valid()
      modifies this
      ensures Valid()
      ensures name in old(authors) ==> id == old(authors)[name].id
      ensures name !in old(authors) ==> id == old(nextId)
      ensures authors == old(authors)[name := AuthorRow(id, bio, birth)]
      ensures nextId == old(nextId) + 1 && quotes == old(quotes)
    {
      var drawn := nextId;
      nextId := nextId + 1;
      if name in authors {
        id := authors[name].id;
      } else {
        id := drawn;
        assert drawn !in owner;
        owner := owner[drawn := name];
      }
      authors := authors[name := AuthorRow(id, bio, birth)];
    }

    /** `INSERT INTO quotes (text, author_id)`; the foreign key refuses an id
        that no author has, and the table is then unchanged. */
    method InsertQuote(text: string, authorId: int) returns (ok: bool)
      requires Valid()
      modifies this
      ensures Valid()
      ensures ok == (authorId in Ids(authors))
      ensures quotes == if ok then old(quotes) + [QuoteRow(text, authorId)] else old(quotes)
      ensures authors == old(authors) && nextId == old(nextId)
    {
      ok := authorId in Ids(authors);
      if ok {
        ghost var n :| n in authors && authors[n].id == authorId;
        quotes := quotes + [QuoteRow(text, authorId)];
      }
    }
  }

  /** `save_to_database(quotes, authors)`: upsert every author, collecting the ids,
      then append one row per quote. A quote whose author has no id raises
      `KeyError`, and the connection's transaction is rolled back; the id sequence,
      which PostgreSQL does not roll back, keeps what it drew. */
  method SaveToDatabase(store: QuoteStore, quotes: seq<Quote>, authors: map<string, AuthorDetails>)
    returns (authorIds: map<string, int>, ok: bool)
    requires store.Valid()
    modifies store
    ensures store.Valid()
    ensures ok == Resolvable(quotes, authors)
    ensures ok ==> Saved(old(store.Contents()), quotes, authors, store.Contents())
    ensures ok ==> authorIds == IdsOf(store.authors, authors.Keys)
    ensures !ok ==> store.Contents() == old(store.Contents())
  {
    var authors0, quotes0 := store.authors, store.quotes;
    ghost var owner0 := store.owner;
    authorIds := UpsertAuthors(store, authors);
    ok := InsertQuotes(store, quotes, authorIds);
    if !ok {
      store.authors, store.quotes := authors0, quotes0;
      store.owner := owner0;
    }
  }

  /** The first loop of `save_to_database`: each author is upserted and its id
      recorded in `author_ids`. */
  method UpsertAuthors(store: QuoteStore, authors: map<string, AuthorDetails>)
    returns (authorIds: map<string, int>)
    requires store.Valid()
    modifies store
    ensures store.Valid()
    ensures Upserted(old(store.authors), authors, store.authors)
    ensures authorIds == IdsOf(store.authors, authors.Keys)
    ensures store.quotes == old(store.quotes)
    ensures store.nextId >= old(store.nextId)
  {
    authorIds := map[];
    var remaining := authors.Keys;
    ghost var done: set<string> := {};
    while remaining != {}
      invariant remaining + done == authors.Keys && remaining !! done
      invariant store.Valid()
      invariant store.quotes == old(store.quotes)
      invariant store.nextId >= old(store.nextId)
      invariant UpsertedOn(old(store.authors), authors, done, store.authors)
      invariant authorIds == IdsOf(store.authors, done)
      decreases remaining
    {
      var name :| name in remaining;
      authorIds := UpsertNext(store, old(store.authors), authors, done, name, authorIds);
      remaining := remaining - {name};
      done := done + {name};
    }
  }

  /** One iteration of the first loop: upsert `name` and record its id. */
  method UpsertNext(store: QuoteStore, ghost before: map<string, AuthorRow>, authors: map<string, AuthorDetails>,
                    ghost done: set<string>, name: string, authorIds: map<string, int>)
    returns (next: map<string, int>)
    requires store.Valid()
    requires done <= authors.Keys && name in authors && name !in done
    requires UpsertedOn(before, authors, done, store.authors)
    requires authorIds == IdsOf(store.authors, done)
    modifies store
    ensures store.Valid()
    ensures store.quotes == old(store.quotes) && store.nextId > old(store.nextId)
    ensures UpsertedOn(before, authors, done + {name}, store.authors)
    ensures next == IdsOf(store.authors, done + {name})
  {
    ghost var was := store.authors;
    var id := store.UpsertAuthor(name, authors[name].bio, authors[name].birth);
    UpsertStep(before, authors, done, was, name, id);
    next := authorIds[name := id];
  }

  lemma UpsertStep(before: map<string, AuthorRow>, input: map<string, AuthorDetails>, done: set<string>,
                   was: map<string, AuthorRow>, name: string, id: int)
    requires done <= input.Keys && name in input && name !in done
    requires UpsertedOn(before, input, done, was)
    requires name in was ==> id == was[name].id
    ensures UpsertedOn(before, input, done + {name}, was[name := AuthorRow(id, input[name].bio, input[name].birth)])
    ensures IdsOf(was, done)[name := id] == IdsOf(was[name := AuthorRow(id, input[name].bio, input[name].birth)], done + {name})
  {
  }

  /** The second loop of `save_to_database`: one row per quote, with the id
      looked up in `author_ids`; `ok` is false when a lookup fails. */
  method InsertQuotes(store: QuoteStore, quotes: seq<Quote>, authorIds: map<string, int>) returns (ok: bool)
    requires store.Valid()
    requires forall n :: n in authorIds ==> n in store.authors && store.authors[n].id == authorIds[n]
    modifies store
    ensures store.Valid()
    ensures ok == Resolvable(quotes, authorIds)
    ensures ok ==> store.quotes == old(store.quotes) + QuoteRows(quotes, authorIds)
    ensures store.authors == old(store.authors) && store.nextId == old(store.nextId)
  {
    var i := 0;
    while i < |quotes|
      invariant 0 <= i <= |quotes|
      invariant Resolvable(quotes[..i], authorIds)
      invariant store.Valid()
      invariant store.authors == old(store.authors) && store.nextId == old(store.nextId)
      invariant store.quotes == old(store.quotes) + QuoteRows(quotes[..i], authorIds)
    {
      var quote := quotes[i];
      if quote.author !in authorIds {
        return false;
      }
      InsertResolved(store, quote, authorIds);
      QuoteRowsStep(quotes, i, authorIds);
      i := i + 1;
    }
    assert quotes[..i] == quotes;
    ok := true;
  }

  /** One iteration of the quote loop for a quote whose author has an id. */
  method InsertResolved(store: QuoteStore, quote: Quote, authorIds: map<string, int>)
    requires store.Valid() && quote.author in authorIds
    requires forall n :: n in authorIds ==> n in store.authors && store.authors[n].id == authorIds[n]
    modifies store
    ensures store.Valid()
    ensures store.quotes == old(store.quotes) + [QuoteRow(quote.text, authorIds[quote.author])]
    ensures store.authors == old(store.authors) && store.nextId == old(store.nextId)
  {
    var inserted := store.InsertQuote(quote.text, authorIds[quote.author]);
    assert inserted by {
      assert store.authors[quote.author].id == authorIds[quote.author];
    }
  }

  lemma QuoteRowsStep(quotes: seq<Quote>, i: nat, ids: map<string, int>)
    requires i < |quotes|
    requires Resolvable(quotes[..i], ids) && quotes[i].author in ids
    ensures Resolvable(quotes[..i + 1], ids)
    ensures QuoteRows(quotes[..i + 1], ids) == QuoteRows(quotes[..i], ids) + [QuoteRow(quotes[i].text, ids[quotes[i].author])]
  {
    assert quotes[..i + 1][..i] == quotes[..i];
  }

  /** Row `i` holds quote `i`'s text and its author's id, in the order of the quotes. */
  lemma {:induction false} QuoteRowsAt(quotes: seq<Quote>, ids: map<string, int>, i: nat)
    requires Resolvable(quotes, ids)
    requires i < |quotes|
    ensures QuoteRows(quotes, ids)[i] == QuoteRow(quotes[i].text, ids[quotes[i].author])
    decreases |quotes|
  {
    if i < |quotes| - 1 {
      QuoteRowsAt(quotes[..|quotes| - 1], ids, i);
    }
  }

  /** Upserting the same authors again changes nothing: names, ids, bios and
      births all stay as the first run left them. */
  lemma UpsertTwice(t0: map<string, AuthorRow>, input: map<string, AuthorDetails>,
                    t1: map<string, AuthorRow>, t2: map<string, AuthorRow>)
    requires Upserted(t0, input, t1) && Upserted(t1, input, t2)
    ensures t2 == t1
  {
    forall n | n in t1
      ensures t2[n] == t1[n]
    {
      if n in input {
        assert t2[n].id == t1[n].id;
      }
    }
  }

  /** Saving the same harvest twice: the author rows are as after the first save,
      but every quote row is appended once more, so the quotes table holds each
      quote twice; saving is not idempotent. */
  lemma SaveTwice(t0: Tables, quotes: seq<Quote>, authors: map<string, AuthorDetails>, t1: Tables, t2: Tables)
    requires Saved(t0, quotes, authors, t1) && Saved(t1, quotes, authors, t2)
    ensures t2.authors == t1.authors
    ensures t2.quotes == t1.quotes + QuoteRows(quotes, IdsOf(t1.authors, authors.Keys))
    ensures |t2.quotes| == |t0.quotes| + 2 * |quotes|
    ensures quotes != [] ==> t2 != t1
  {
    UpsertTwice(t0.authors, authors, t1.authors, t2.authors);
  }

  /** What `fetch_quotes` returns can always be saved: every quote's author is a
      key of the authors it returns, so `author_ids[author]` never fails. */
  lemma HarvestIsResolvable(source: seq<Page>, authorPage: string -> AuthorPage)
    ensures Resolvable(QuotesOf(Harvested(source)), FirstSightings(Harvested(source), authorPage))
  {
    HarvestedAuthorsKnown(source, authorPage);
  }

  /** The script's run after the tables exist: harvest, then save. The save always
      succeeds, with one author row per distinct author and one quote row per
      quote, in page order. */
  method HarvestAndSave(store: QuoteStore, source: seq<Page>, authorPage: string -> AuthorPage)
    returns (ok: bool)
    requires store.Valid()
    modifies store
    ensures store.Valid() && ok
    ensures Saved(old(store.Contents()), QuotesOf(Harvested(source)),
                  FirstSightings(Harvested(source), authorPage), store.Contents())
  {
    var quotes, authors := FetchQuotes(source, authorPage);
    HarvestIsResolvable(source, authorPage);
    var _, saved := SaveToDatabase(store, quotes, authors);
    ok := saved;
  }
}

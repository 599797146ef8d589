# Quotes harvester and quotes bot, in Dafny

This project models the two halves of the repository.

- **Harvester** (`pars/main.py`). `fetch_quotes` walks the listing pages of the quotes site until the first page that is not a 200 or has no quotes. It collects every quote in page order and fetches an author's biography on first sighting only. `save_to_database` upserts the authors by name and appends one quote row per quote. `create_or_update_tables` creates the two tables and migrates an old `authors` layout.
- **Telegram bot** (`bot/bot.py`). It covers:
  - the conventions of the database helpers: an empty list or `(None, None, None, None)` on a missing row or a driver error;
  - the `search_author` dispatch on the number of matches;
  - the author card and its defaults;
  - the callback data of the inline buttons (`add_fav_<name>`, `fav_<name>`) and how they are parsed back with `split("_")`;
  - the per-user favourites dict.

Files:

- `wrappers.dfy`: `Option`.
- `strings.dfy`: Python's `strip`, `split` and `join` with their laws.
- `harvester.dfy`: `fetch_quotes` over an abstract site.
- `store.dfy`: `save_to_database` over an in-memory class of the two tables.
- `schema.dfy`: `create_or_update_tables` on a map from table name to column set.
- `bot_queries.dfy`: the `fetch_*` helpers over query outcomes given as inputs.
- `bot_callbacks.dfy`: callback data.
- `bot_replies.dfy`: the handlers' replies.
- `bot_favorites.dfy`: `user_favorites`.

The imperative parts stay imperative:

- `fetch_quotes`, the two loops of `save_to_database` and `add_to_favorites` are methods with loops or in-place updates, proved against specification functions.
- The store, the schema and the favourites dict are classes whose methods update their fields.

Two behaviours of the code worth knowing:

- The quotes table has only a serial key, so `ON CONFLICT DO NOTHING` never fires. Saving the same harvest twice therefore duplicates every quote row (`Store.SaveTwice`). Writing is not idempotent for quotes.
- Authors and quotes are written in one transaction. A `KeyError` in the quote loop rolls back the author upserts as well, and only the id sequence keeps what it drew.

## Model

| member | source | states |
|---|---|---|
| Strings.Strip | pars/main.py:119-121 | `strip()` yields a text that neither starts nor ends with Python whitespace and is no longer than the input |
| Strings.StripSurrounded | bot/bot.py:109 | `strip()` removes exactly the surrounding whitespace: any whitespace around a trimmed text strips back to that text |
| Strings.StripIdempotent | bot/bot.py:109 | stripping twice is stripping once |
| Strings.Split | bot/bot.py:137 | `split(sep)` returns at least one part and no part contains the separator |
| Strings.JoinSplit | bot/bot.py:90 | joining the parts of a split with the same separator restores the text |
| Strings.SplitJoin | bot/bot.py:90 | splitting a join gives back the parts when none holds the separator |
| Strings.SplitConcat | bot/bot.py:137 | a separator splits the text around it independently: parts of the left, then parts of the right |
| Strings.SplitHead | bot/bot.py:137 | the first part of a split is everything before the first separator |
| Harvester.FetchPage | pars/main.py:100-103 | page n is the n-th page of the site; past the last page the status is not 200 |
| Harvester.FetchQuotes | pars/main.py:94-134 | the returned quotes are exactly the quotes of the pages before the first non-200 or empty page, and the authors map is the first-sighting details of those quotes' authors |
| Harvester.ReadQuoteElements | pars/main.py:111-130 | one page's elements append their quotes in order and add details only for authors not yet in the map |
| Harvester.LiveCountStops | pars/main.py:99-109 | every consumed page has status 200 and items; the page after them does not |
| Harvester.FirstPageEnds | pars/main.py:99-109 | a first page that is empty or not 200 gives `([], {})` |
| Harvester.HarvestOrder | pars/main.py:111-130 | the quote count is the total item count of the consumed pages, and item k of page p is quote number (items before p) + k |
| Harvester.QuotesOfAt | pars/main.py:130 | quote i is the text and author of element i |
| Harvester.HarvestedAuthorsKnown | pars/main.py:116-130 | the authors map has exactly the authors of the harvested quotes as keys, so every quote's author is a key |
| Harvester.SightAllKeys | pars/main.py:116-128 | the authors map gains exactly the authors of the elements read |
| Harvester.FirstSightingWins | pars/main.py:116-128 | an author's details are those fetched from the link of the author's first quote |
| Harvester.LaterSightingsKeep | pars/main.py:116-128 | later quotes of an already seen author leave that author's entry unchanged |
| Harvester.BirthIgnoresPadding | pars/main.py:119-123 | birth is the stripped date, one space, the stripped location, whatever whitespace surrounds them |
| Store.IdsOf | pars/main.py:67-84 | `author_ids` has exactly the input authors as keys |
| Store.QuoteRows | pars/main.py:86-91 | one row per quote |
| Store.QuoteRowsAt | pars/main.py:86-91 | row i carries quote i's text and the id resolved for its author |
| Store.QuoteStore.constructor | pars/main.py:14-26 | the tables start empty, with the id sequence at 1 |
| Store.QuoteStore.UpsertAuthor | pars/main.py:71-78 | an existing name keeps its id and gets the new bio and birth; a new name gets the next sequence value; the sequence advances either way |
| Store.QuoteStore.InsertQuote | pars/main.py:87-91 | the row is appended exactly when its author id exists (the foreign key) |
| Store.QuoteStore.IdsUnique | pars/main.py:16 | no two authors share an id (`id SERIAL PRIMARY KEY`) |
| Store.QuoteStore.QuotesReferenceAuthors | pars/main.py:25 | every quote row's `author_id` is the id of some author (`REFERENCES authors(id)`) |
| Store.UpsertAuthors | pars/main.py:67-84 | after the author loop every input name is in the table with the input bio and birth, existing names keep their ids, other rows are untouched, and `author_ids` maps each name to its row's id |
| Store.InsertQuotes | pars/main.py:86-91 | the quote loop succeeds exactly when every quote's author has an id, and then appends one row per quote in order |
| Store.SaveToDatabase | pars/main.py:59-92 | the save succeeds exactly when every quote's author is in the authors map; on success the tables are upserted and appended as above; on `KeyError` both tables are as before |
| Store.UpsertTwice | pars/main.py:71-78 | upserting the same authors a second time leaves the author table unchanged |
| Store.SaveTwice | pars/main.py:86-91 | saving the same harvest twice keeps the author rows but appends every quote row again, so the tables differ whenever there are quotes |
| Store.HarvestIsResolvable | pars/main.py:138-139 | what `fetch_quotes` returns never makes `author_ids[author]` fail |
| Store.HarvestAndSave | pars/main.py:138-139 | harvesting then saving always succeeds and leaves the tables as the save specification says |
| Schema.MigrateAuthors | pars/main.py:29-55 | the migrated `authors` columns contain `birth`, neither legacy column, every other old column, and nothing new except `birth` |
| Schema.MigratedShape | pars/main.py:14-55 | both tables exist afterwards, an existing `quotes` table and other tables are unchanged, and `authors` is migrated |
| Schema.MigrateFresh | pars/main.py:14-26 | on an empty database exactly the two declared tables are created |
| Schema.MigrateLegacyAuthors | pars/main.py:29-55 | the old layout with `birth_date` and `additional_info` becomes `id, name, bio, birth` |
| Schema.MigrateIdempotent | pars/main.py:6-57 | running the migration twice equals running it once |
| Schema.Database.CreateTableIfNotExists | pars/main.py:14-26 | a table is created only when absent |
| Schema.Database.DropColumnIfExists | pars/main.py:32-46 | the column is gone afterwards and nothing else changes |
| Schema.Database.AddColumnIfNotExists | pars/main.py:48-54 | the column is present afterwards and nothing else changes |
| Schema.Database.CreateOrUpdateTables | pars/main.py:6-57 | the statements in order leave the schema equal to the migration function of the old schema |
| Queries.NamesOrEmpty | bot/bot.py:31-52 | a driver error gives the empty list, otherwise the names returned |
| Queries.FetchAuthorInfo | bot/bot.py:54-78 | the name is present exactly when the row exists and both queries succeed; otherwise all four fields are None; a found author's quote is the first quote or "Цитат не найдено." |
| Queries.MissingLikeError | bot/bot.py:74-78 | a missing author and a failed query give the same all-None result, which the handlers treat as not found |
| Queries.FoundHasQuote | bot/bot.py:71-73 | a found author always has a quote to show, the placeholder when there is none |
| Replies.BirthText | bot/bot.py:125 | a present, non-empty birth is shown as it is; a NULL or empty one as "Неизвестно" |
| Replies.Card | bot/bot.py:119-131 | the card is shown exactly when name and bio are non-empty; its text is the author's name, birth (or "Неизвестно"), bio and quote; only the search card carries a button, which adds that author to favourites |
| Replies.SearchAuthor | bot/bot.py:108-133 | no match gives "author not found"; one match gives that author's search card; several matches give the listing of the candidates without buttons; so the reply carries a button exactly when one author matched and was found |
| Replies.ShowFavoriteAuthor | bot/bot.py:163-176 | the reply is the favourite card of the name read up to the first underscore after `fav_`, or "information not found" exactly when that author is not found; it has no buttons |
| Replies.FavoriteOpensCard | bot/bot.py:152-176 | a favourites button for a name without an underscore opens that author's card, and it reports "information not found" exactly when the search card would |
| Replies.ListingLines | bot/bot.py:88-91 | a listing is the header's lines, one line per name, a blank line, and the footer's lines |
| Replies.CardTextLines | bot/bot.py:123-128 | the card has one line per field with blank lines between fields, plus a blank line after the name in the search view |
| Replies.AuthorListReply | bot/bot.py:87-94 | the list reply is the failure text exactly when the query failed or the table is empty; otherwise the names are listed one per line |
| Replies.SearchIgnoresPadding | bot/bot.py:109 | whitespace around the message does not change the reply |
| Replies.SearchErrorIsNotFound | bot/bot.py:41-52 | a failed search query gives the "author not found" reply, the same as no match |
| Replies.SearchListsCandidates | bot/bot.py:112-116 | several matches are listed one per line between the header and the footer, with no buttons |
| Replies.SearchButtonRoundTrip | bot/bot.py:119-122 | the single-match button carries `add_fav_<name>` and gives the name back exactly when the name has no underscore |
| Replies.CardDefaults | bot/bot.py:123-128 | a NULL or empty birth is rendered as "Неизвестно", and an author without quotes gets "Цитат не найдено." |
| Callbacks.EncodeAddFav | bot/bot.py:121 | the data is the prefix `add_fav_` followed by the name |
| Callbacks.EncodeFav | bot/bot.py:154 | the data is the prefix `fav_` followed by the name |
| Callbacks.ParseAddFav | bot/bot.py:137 | `split("_")[2]` of `add_fav_` data is the text after the prefix up to its first underscore |
| Callbacks.ParseFav | bot/bot.py:164 | `split("_")[1]` of `fav_` data is the text after the prefix up to its first underscore |
| Callbacks.AddFavRoundTrip | bot/bot.py:137 | a name comes back from `add_fav_<name>` if and only if it has no underscore |
| Callbacks.AddFavTruncates | bot/bot.py:137 | a name with an underscore comes back cut at its first underscore |
| Callbacks.FavRoundTrip | bot/bot.py:164 | a name comes back from `fav_<name>` if and only if it has no underscore |
| Callbacks.FavTruncates | bot/bot.py:164 | a name with an underscore comes back cut at its first underscore |
| Callbacks.StoredNameReopens | bot/bot.py:137-164 | the name stored from an `add_fav_` button always comes back unchanged from its `fav_` button |
| Favorites.AddedProperties | bot/bot.py:140-146 | adding keeps earlier entries in order, leaves the name in the list exactly once, appends only when absent, and a second add changes nothing |
| Favorites.FavoriteButton | bot/bot.py:154 | a favourite button is captioned with the name, and its data parses back to the name up to its first underscore |
| Favorites.FavoritesStore.constructor | bot/bot.py:29 | no user has favourites at start |
| Favorites.FavoritesStore.AddToFavorites | bot/bot.py:135-146 | only this user's list changes; the parsed name is appended when absent; the reply says "added" or "already in favourites" accordingly; no list repeats a name or holds an underscore |
| Favorites.FavoritesStore.ShowFavorites | bot/bot.py:148-160 | the "no favourites" text appears exactly when the user's list is empty or missing; otherwise there is one button per favourite, in order |
| Favorites.FavoritesStore.ButtonsReopen | bot/bot.py:152-164 | every favourites button's data parses back to its caption |

## Left out

- HTTP and HTML extraction are not modelled. The site is a sequence of pages plus a function from an author link to the author page's texts. The CSS selectors, and the `AttributeError` a missing element would raise, are left out.
- psycopg2 connections, cursors and the environment defaults of the connection settings are not modelled. A driver error is an input (`Queries.Query.DbError`).
- The transaction around `save_to_database` is modelled only as the rollback on `KeyError`.
- The follow-up `SELECT id` after an upsert with no returned row is not modelled. `ON CONFLICT DO UPDATE ... RETURNING id` always returns a row, so that branch cannot run.
- The serial id of a quote row is not modelled.
- `ORDER BY name`, `ILIKE` matching and the row chosen by `LIMIT 1` belong to the database. They appear as the given outcomes in `Queries.Db`.
- Store.SaveToDatabase: does not state how far the author id sequence advances. The code draws one value per input author; the model proves only that the sequence never goes back (`Store.UpsertAuthors`), because the exact count over the loop's set of names was too costly to carry.
- Harvester.FetchQuotes: dict insertion order of the authors map is not modelled, because a Dafny map has no order. Quote order is modelled.
- Store.UpsertAuthors: authors are upserted in an unspecified order, which is the dict's insertion order in the code. Only the final table is stated, not the order of id assignment.
- aiogram routing, the main menu keyboard and the message filters that pick a handler are not modelled. Of each reply only the text and the inline buttons' captions and data are kept.
- `asyncio` and concurrent access to `user_favorites` are not modelled.
- Logging and `print` are not modelled.

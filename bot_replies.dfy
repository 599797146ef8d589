/** The replies of the bot's handlers in `bot/bot.py`: the author list of `/start`
    and "Показать авторов", the dispatch of `search_author` on the number of
    matches, the author card of `search_author` and `show_favorite_author`, and
    their defaults. Keyboards are kept only as the inline buttons' labels and
    callback data. */
module Replies {
  import opened Wrappers
  import opened Strings
  import opened Queries
  import opened Callbacks

  datatype Button = Button(caption: string, data: string)

  /** The text of `message.answer` and the inline buttons under it. */
  datatype Reply = Reply(text: string, buttons: seq<Button>)

  /** Which handler renders an author card: `search_author` puts a blank line after
      the name and offers the "add to favourites" button, `show_favorite_author`
      does neither. */
  datatype View = SearchCard | FavoriteCard

  const Unknown: string := "Неизвестно"
  const InfoNotFound: string := "Информация об авторе не найдена."
  const AuthorNotFound: string := "Автор не найден. Попробуйте снова."
  const ListHeader: string := "Список доступных авторов:"
  const ListFooter: string := "Пожалуйста, напишите имя или фамилию автора из списка."
  const ListFailure: string := "Не удалось загрузить список авторов. Проверьте подключение к базе данных."
  const ManyHeader: string := "Найдено несколько авторов с похожим именем:"
  const ManyFooter: string := "Пожалуйста, напишите полное имя автора из списка."
  const AddLabel: string := "Добавить в избранное"

  /** `birth if birth else 'Неизвестно'`: a NULL or empty birth is shown as unknown. */
  function BirthText(birth: Option<string>): (t: string)
    ensures birth.Some? && birth.value != [] ==> t == birth.value
    ensures birth.None? || birth.value == [] ==> t == Unknown
  {
    match birth
    case Some(b) => if b != [] then b else Unknown
    case None => Unknown
  }

  /** A header line, the names one per line, a blank line and a footer line. */
  function Listing(header: string, names: seq<string>, footer: string): string
    requires names != []
  {
    header + "\n" + Join(names, '\n') + "\n\n" + footer
  }

  const NameLabel: string := "Автор: "
  const BirthLabel: string := "Дата и место рождения: "
  const BioLabel: string := "Биография: "
  const QuoteLabel: string := "Цитата: "

  /** Two blocks of text with a blank line between them. */
  function Blank(a: string, b: string): string
  {
    a + "\n\n" + b
  }

  /** The f-string of the author card, with the birth already rendered. */
  function CardText(name: string, birth: string, bio: string, quote: string, view: View): string
  {
    var fields := Blank(BirthLabel + birth, Blank(BioLabel + bio, QuoteLabel + quote));
    if view == SearchCard then Blank(NameLabel + name, fields) else NameLabel + name + "\n" + fields
  }

  /** The card of an author: shown only when `full_name and bio` holds, otherwise
      the "information not found" reply; only the search card carries a button. */
  function Card(db: Db, name: string, view: View): (r: Reply)
    ensures Found(FetchAuthorInfo(db, name)) <==> r.text != InfoNotFound
    ensures r.buttons != [] <==> Found(FetchAuthorInfo(db, name)) && view == SearchCard
    ensures var info := FetchAuthorInfo(db, name);
            Found(info) ==> r.text == CardText(info.name.value, BirthText(info.birth), info.bio.value, info.quote.value, view)
    ensures var info := FetchAuthorInfo(db, name);
            Found(info) && view == SearchCard ==> r.buttons == [Button(AddLabel, EncodeAddFav(info.name.value))]
  {
    var info := FetchAuthorInfo(db, name);
    if Found(info) then
      var text := CardText(info.name.value, BirthText(info.birth), info.bio.value, info.quote.value, view);
      assert text[0] == 'А';
      Reply(text,
            if view == SearchCard then [Button(AddLabel, EncodeAddFav(info.name.value))] else [])
    else
      Reply(InfoNotFound, [])
  }

  /** The reply to `/start` and to "Показать авторов". */
  function AuthorList(db: Db): (text: string)
  {
    var names := FetchAllAuthors(db);
    if names != [] then Listing(ListHeader, names, ListFooter) else ListFailure
  }

  /** `search_author`: the query is the stripped message; several matches are listed,
      a single one is shown as a card, none gives the "not found" reply. */
  function SearchAuthor(db: Db, message: string): (r: Reply)
    ensures var matches := FetchMatchingAuthors(db, Strip(message));
            r.buttons != [] <==> |matches| == 1 && Found(FetchAuthorInfo(db, matches[0]))
    ensures var matches := FetchMatchingAuthors(db, Strip(message));
            |matches| == 0 ==> r == Reply(AuthorNotFound, [])
    ensures var matches := FetchMatchingAuthors(db, Strip(message));
            |matches| == 1 ==> r == Card(db, matches[0], SearchCard)
    ensures var matches := FetchMatchingAuthors(db, Strip(message));
            |matches| > 1 ==> r == Reply(Listing(ManyHeader, matches, ManyFooter), [])
  {
    var matches := FetchMatchingAuthors(db, Strip(message));
    if |matches| > 1 then Reply(Listing(ManyHeader, matches, ManyFooter), [])
    else if |matches| == 1 then Card(db, matches[0], SearchCard)
    else Reply(AuthorNotFound, [])
  }

  /** `show_favorite_author`: the card of the name the button carries. */
  function ShowFavoriteAuthor(db: Db, data: string): (r: Reply)
    requires FavPrefix <= data
    ensures var info := FetchAuthorInfo(db, Before(data[|FavPrefix|..], '_'));
            && r.buttons == []
            && (r.text == InfoNotFound <==> !Found(info))
            && (Found(info) ==>
                  r.text == CardText(info.name.value, BirthText(info.birth), info.bio.value, info.quote.value, FavoriteCard))
  {
    Card(db, ParseFav(data), FavoriteCard)
  }

  /** A favourites button opens the card of the name it was built from, when the
      name has no underscore; this is the card the search shows, without its button
      and without the blank line after the name. */
  lemma FavoriteOpensCard(db: Db, name: string)
    requires '_' !in name
    ensures ShowFavoriteAuthor(db, EncodeFav(name)) == Card(db, name, FavoriteCard)
    ensures ShowFavoriteAuthor(db, EncodeFav(name)).text == InfoNotFound
            <==> Card(db, name, SearchCard).text == InfoNotFound
  {
    FavRoundTrip(name);
  }

  /** A listing has its header, each name on a line of its own, a blank line and
      its footer: the names can be read back from the text when none holds a line
      break. */
  lemma ListingLines(header: string, names: seq<string>, footer: string)
    requires names != []
    requires forall i :: 0 <= i < |names| ==> '\n' !in names[i]
    ensures Split(Listing(header, names, footer), '\n') == Split(header, '\n') + names + [""] + Split(footer, '\n')
  {
    var n, j := '\n', Join(names, '\n');
    assert Listing(header, names, footer) == header + [n] + (j + [n] + ([n] + footer));
    SplitConcat(header, n, j + [n] + ([n] + footer));
    SplitBlank(j, footer);
    SplitJoin(names, n);
  }

  /** The lines of `Blank(a, b)`: those of `a`, an empty line, those of `b`. */
  lemma BlankLines(a: string, b: string)
    ensures Split(Blank(a, b), '\n') == Split(a, '\n') + [""] + Split(b, '\n')
  {
    assert Blank(a, b) == a + ['\n'] + (['\n'] + b);
    SplitBlank(a, b);
  }

  /** The card puts each field on its own line with a blank line between fields;
      the search card has one more blank line, after the name. */
  lemma CardTextLines(name: string, birth: string, bio: string, quote: string, view: View)
    ensures Split(CardText(name, birth, bio, quote, view), '\n')
            == Split(NameLabel + name, '\n') + (if view == SearchCard then [""] else [])
               + Split(BirthLabel + birth, '\n') + [""]
               + Split(BioLabel + bio, '\n') + [""]
               + Split(QuoteLabel + quote, '\n')
  {
    var a, b, c, d := NameLabel + name, BirthLabel + birth, BioLabel + bio, QuoteLabel + quote;
    var fields := Blank(b, Blank(c, d));
    BlankLines(c, d);
    BlankLines(b, Blank(c, d));
    if view == SearchCard {
      BlankLines(a, fields);
    } else {
      SplitConcat(a, '\n', fields);
    }
  }

  /** The list reply fails exactly when no names came back, whether the table is
      empty or the database could not be reached; otherwise the names are listed
      one per line, in the order the query returned them. */
  lemma AuthorListReply(db: Db)
    ensures AuthorList(db) == ListFailure <==> db.allNames == DbError || db.allNames == Rows([])
    ensures db.allNames.Rows? && db.allNames.rows != [] &&
            (forall i :: 0 <= i < |db.allNames.rows| ==> '\n' !in db.allNames.rows[i]) ==>
              Split(AuthorList(db), '\n') == Split(ListHeader, '\n') + db.allNames.rows + [""] + Split(ListFooter, '\n')
  {
    var names := FetchAllAuthors(db);
    if names != [] {
      assert AuthorList(db)[0] == 'С';
      if forall i :: 0 <= i < |names| ==> '\n' !in names[i] {
        ListingLines(ListHeader, names, ListFooter);
      }
    }
  }

  /** Whitespace around the message does not change the search. */
  lemma SearchIgnoresPadding(db: Db, a: string, m: string, b: string)
    requires AllSpace(a) && AllSpace(b) && Trimmed(m)
    ensures SearchAuthor(db, a + m + b) == SearchAuthor(db, m)
  {
    StripSurrounded(a, m, b);
    StripSurrounded([], m, []);
    assert [] + m + [] == m;
  }

  /** A failed search query reads as no match at all. */
  lemma SearchErrorIsNotFound(db: Db, message: string)
    requires db.matching(Strip(message)) == DbError
    ensures SearchAuthor(db, message) == Reply(AuthorNotFound, [])
    ensures SearchAuthor(db, message) == SearchAuthor(db.(matching := _ => Rows([])), message)
  {
  }

  /** Several matches are listed one per line, between the two fixed lines. */
  lemma SearchListsCandidates(db: Db, message: string)
    requires var matches := FetchMatchingAuthors(db, Strip(message));
             |matches| > 1 && forall i :: 0 <= i < |matches| ==> '\n' !in matches[i]
    ensures var matches := FetchMatchingAuthors(db, Strip(message));
            SearchAuthor(db, message).buttons == [] &&
            Split(SearchAuthor(db, message).text, '\n') == Split(ManyHeader, '\n') + matches + [""] + Split(ManyFooter, '\n')
  {
    ListingLines(ManyHeader, FetchMatchingAuthors(db, Strip(message)), ManyFooter);
  }

  /** The single-match card's button gives the name back to `add_to_favorites`
      exactly when the name has no underscore. */
  lemma SearchButtonRoundTrip(db: Db, message: string)
    requires SearchAuthor(db, message).buttons != []
    ensures var r := SearchAuthor(db, message);
            var name := FetchAuthorInfo(db, FetchMatchingAuthors(db, Strip(message))[0]).name.value;
            && r.buttons == [Button(AddLabel, EncodeAddFav(name))]
            && (ParseAddFav(r.buttons[0].data) == name <==> '_' !in name)
  {
    var name := FetchAuthorInfo(db, FetchMatchingAuthors(db, Strip(message))[0]).name.value;
    AddFavRoundTrip(name);
  }

  /** The card's defaults: a NULL or empty birth is shown as "Неизвестно", and an
      author without quotes gets the "no quotes" placeholder. */
  lemma CardDefaults(db: Db, name: string, view: View)
    requires Found(FetchAuthorInfo(db, name))
    ensures var info := FetchAuthorInfo(db, name);
            var b := info.birth;
            (b.None? || b.value == []) ==>
              Card(db, name, view).text == CardText(info.name.value, Unknown, info.bio.value, info.quote.value, view)
    ensures var info := FetchAuthorInfo(db, name);
            db.firstQuote(info.name.value) == Rows(None) ==>
              Card(db, name, view).text == CardText(info.name.value, BirthText(info.birth), info.bio.value, NoQuote, view)
  {
  }
}

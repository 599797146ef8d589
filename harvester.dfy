/** The quote harvester of `pars/main.py` (`fetch_quotes`): it walks the listing
    pages 1, 2, ... of the quotes site, collecting every quote in order and the
    biography of every author on first sighting.

    The network is abstracted: the site is a finite sequence of listing pages
    (page n is `source[n - 1]`; asking past the end reads as a non-200 page) and
    a total function from an author link to the texts of that author's page. */
module Harvester {
  import Strings

  /** One `.quote` element of a listing page: text, author name, author link. */
  datatype Item = Item(text: string, author: string, url: string)

  /** A listing page: the HTTP status and the `.quote` elements, in page order. */
  datatype Page = Page(status: int, items: seq<Item>)

  /** The raw texts of an author's page: description, birth date, birth location. */
  datatype AuthorPage = AuthorPage(description: string, bornDate: string, bornLocation: string)

  /** What the harvester keeps per author, the dict `{'bio': ..., 'birth': ...}`. */
  datatype AuthorDetails = AuthorDetails(bio: string, birth: string)

  /** A harvested quote, the tuple `(text, author)`. */
  datatype Quote = Quote(text: string, author: string)

  const OK: int := 200

  /** `requests.get` of listing page `page` (1-based); past the end there is no 200. */
  function FetchPage(source: seq<Page>, page: nat): (p: Page)
    requires page >= 1
    ensures page <= |source| ==> p == source[page - 1]
    ensures page > |source| ==> p.status != OK
  {
    if page <= |source| then source[page - 1] else Page(404, [])
  }

  /** A page the loop goes through: status 200 and at least one quote. */
  predicate Live(p: Page) {
    p.status == OK && |p.items| > 0
  }

  /** How many pages, from the first, the harvester consumes. */
  function LiveCount(source: seq<Page>): (n: nat)
    ensures n <= |source|
  {
    if source == [] || !Live(source[0]) then 0 else 1 + LiveCount(source[1..])
  }

  /** The items of the given pages, page after page, each page in its own order. */
  function ItemsOf(pages: seq<Page>): seq<Item>
  {
    if pages == [] then [] else ItemsOf(pages[..|pages| - 1]) + pages[|pages| - 1].items
  }

  /** The number of items on the given pages. */
  function TotalItems(pages: seq<Page>): nat
  {
    if pages == [] then 0 else TotalItems(pages[..|pages| - 1]) + |pages[|pages| - 1].items|
  }

  /** The items the harvester reads: those of the consumed pages. */
  function Harvested(source: seq<Page>): seq<Item>
  {
    ItemsOf(source[..LiveCount(source)])
  }

  /** The quote tuples of a list of items, in the same order. */
  function QuotesOf(items: seq<Item>): (qs: seq<Quote>)
    ensures |qs| == |items|
  {
    if items == [] then []
    else
      var last := items[|items| - 1];
      QuotesOf(items[..|items| - 1]) + [Quote(last.text, last.author)]
  }

  /** The birth descriptor: stripped date, one space, stripped location. */
  function Birth(bornDate: string, bornLocation: string): string
  {
    Strings.Strip(bornDate) + " " + Strings.Strip(bornLocation)
  }

  /** The details stored for an author: stripped description and the birth descriptor. */
  function Details(p: AuthorPage): AuthorDetails
  {
    AuthorDetails(Strings.Strip(p.description), Birth(p.bornDate, p.bornLocation))
  }

  /** Reading one item: its author's page is read, and an entry made, only when
      the author is not yet in `seen`. */
  function Sight(seen: map<string, AuthorDetails>, e: Item, authorPage: string -> AuthorPage)
    : map<string, AuthorDetails>
  {
    if e.author in seen then seen else seen[e.author := Details(authorPage(e.url))]
  }

  /** Reading `items` in order, starting from the entries `seen`. */
  function SightAll(items: seq<Item>, authorPage: string -> AuthorPage, seen: map<string, AuthorDetails>)
    : map<string, AuthorDetails>
    decreases |items|
  {
    if items == [] then seen else SightAll(items[1..], authorPage, Sight(seen, items[0], authorPage))
  }

  /** The `authors` dict after reading `items` from an empty dict. */
  function FirstSightings(items: seq<Item>, authorPage: string -> AuthorPage): map<string, AuthorDetails>
  {
    SightAll(items, authorPage, map[])
  }

  /** `fetch_quotes`: pages are fetched from 1 until one is not 200 or has no quotes. */
  method FetchQuotes(source: seq<Page>, authorPage: string -> AuthorPage)
    returns (quotes: seq<Quote>, authors: map<string, AuthorDetails>)
    ensures quotes == QuotesOf(Harvested(source))
    ensures authors == FirstSightings(Harvested(source), authorPage)
  {
    quotes := [];
    authors := map[];
    var page := 1;
    ghost var read: seq<Item> := [];
    while true
      invariant 1 <= page <= LiveCount(source) + 1
      invariant read == ItemsOf(source[..page - 1])
      invariant quotes == QuotesOf(read)
      invariant authors == FirstSightings(read, authorPage)
      decreases LiveCount(source) + 1 - page
    {
      var response := FetchPage(source, page);
      if response.status != OK {
        break;
      }
      var elements := response.items;
      if |elements| == 0 {
        break;
      }
      NextPageIsConsumed(source, page);
      var more: seq<Quote>;
      more, authors := ReadQuoteElements(elements, authorPage, authors);
      quotes := quotes + more;
      QuotesOfAppend(read, elements);
      SightAllAppend(read, elements, authorPage, map[]);
      read := read + elements;
      ReadOnePage(source, page);
      page := page + 1;
    }
    LastPageIsNotConsumed(source, page);
  }

  /** The body of the page loop: each `.quote` element in turn gives a quote
      and, when its author is new, causes one read of the author's page. */
  method ReadQuoteElements(elements: seq<Item>, authorPage: string -> AuthorPage,
                           authors0: map<string, AuthorDetails>)
    returns (quotes: seq<Quote>, authors: map<string, AuthorDetails>)
    ensures quotes == QuotesOf(elements)
    ensures authors == SightAll(elements, authorPage, authors0)
  {
    quotes, authors := [], authors0;
    var i := 0;
    while i < |elements|
      invariant 0 <= i <= |elements|
      invariant quotes == QuotesOf(elements[..i])
      invariant SightAll(elements[i..], authorPage, authors) == SightAll(elements, authorPage, authors0)
    {
      var element := elements[i];
      ghost var prev := authors;
      if element.author !in authors {
        var bioPage := authorPage(element.url);
        var bio := Strings.Strip(bioPage.description);
        var birth := Birth(bioPage.bornDate, bioPage.bornLocation);
        authors := authors[element.author := AuthorDetails(bio, birth)];
      }
      assert authors == Sight(prev, element, authorPage);
      quotes := quotes + [Quote(element.text, element.author)];
      assert elements[..i + 1][..i] == elements[..i];
      assert elements[i..][1..] == elements[i + 1..];
      assert SightAll(elements[i..], authorPage, prev) == SightAll(elements[i + 1..], authorPage, authors);
      i := i + 1;
    }
    assert elements[..i] == elements;
  }

  /** A live page at `page` lies within the consumed prefix. */
  lemma NextPageIsConsumed(source: seq<Page>, page: nat)
    requires 1 <= page <= LiveCount(source) + 1
    requires Live(FetchPage(source, page))
    ensures page <= LiveCount(source)
  {
    LiveCountStops(source);
  }

  /** A page that ends the loop is the one right after the consumed prefix. */
  lemma LastPageIsNotConsumed(source: seq<Page>, page: nat)
    requires 1 <= page <= LiveCount(source) + 1
    requires !Live(FetchPage(source, page))
    ensures page == LiveCount(source) + 1
  {
    LiveCountStops(source);
  }

  /** One more page read: its items follow those of the earlier pages. */
  lemma ReadOnePage(source: seq<Page>, page: nat)
    requires 1 <= page <= |source|
    ensures ItemsOf(source[..page]) == ItemsOf(source[..page - 1]) + source[page - 1].items
  {
    assert source[..page][..page - 1] == source[..page - 1];
  }

  lemma {:induction false} QuotesOfAppend(a: seq<Item>, b: seq<Item>)
    ensures QuotesOf(a + b) == QuotesOf(a) + QuotesOf(b)
    decreases |b|
  {
    if b == [] {
      assert a + b == a;
    } else {
      assert (a + b)[..|a + b| - 1] == a + b[..|b| - 1];
      QuotesOfAppend(a, b[..|b| - 1]);
    }
  }

  /** Reading `a + b` is reading `a`, then `b` from where `a` left off. */
  lemma {:induction false} SightAllAppend(a: seq<Item>, b: seq<Item>, authorPage: string -> AuthorPage,
                                          seen: map<string, AuthorDetails>)
    ensures SightAll(a + b, authorPage, seen) == SightAll(b, authorPage, SightAll(a, authorPage, seen))
    decreases |a|
  {
    if a == [] {
      assert a + b == b;
    } else {
      assert (a + b)[1..] == a[1..] + b;
      SightAllAppend(a[1..], b, authorPage, Sight(seen, a[0], authorPage));
    }
  }

  /** The harvest stops at the first page that is not 200 or has no quotes:
      every page before it is live, and it is not. */
  lemma {:induction false} LiveCountStops(source: seq<Page>)
    ensures forall k :: 0 <= k < LiveCount(source) ==> Live(source[k])
    ensures LiveCount(source) < |source| ==> !Live(source[LiveCount(source)])
  {
    if source != [] && Live(source[0]) {
      LiveCountStops(source[1..]);
      forall k | 0 <= k < LiveCount(source)
        ensures Live(source[k])
      {
        if k > 0 {
          assert source[k] == source[1..][k - 1];
        }
      }
    }
  }

  /** A first page that is not 200 or has no quotes ends the harvest with nothing. */
  lemma FirstPageEnds(source: seq<Page>, authorPage: string -> AuthorPage)
    requires |source| == 0 || !Live(source[0])
    ensures QuotesOf(Harvested(source)) == []
    ensures FirstSightings(Harvested(source), authorPage) == map[]
  {
  }

  /** The authors named by a list of items. */
  function AuthorsOf(items: seq<Item>): set<string>
  {
    set i | 0 <= i < |items| :: items[i].author
  }

  lemma {:induction false} ItemsOfCount(pages: seq<Page>)
    ensures |ItemsOf(pages)| == TotalItems(pages)
    decreases |pages|
  {
    if pages != [] {
      ItemsOfCount(pages[..|pages| - 1]);
    }
  }

  /** Page order, then order within a page: item `k` of page `p` comes after all
      items of the pages before `p`. */
  lemma {:induction false} ItemsOfAt(pages: seq<Page>, p: nat, k: nat)
    requires p < |pages| && k < |pages[p].items|
    ensures TotalItems(pages[..p]) + k < |ItemsOf(pages)|
    ensures ItemsOf(pages)[TotalItems(pages[..p]) + k] == pages[p].items[k]
    decreases |pages|
  {
    var last := |pages| - 1;
    var init := pages[..last];
    ItemsOfCount(init);
    ItemsOfCount(pages);
    if p == last {
      assert pages[..p] == init;
    } else {
      ItemsOfAt(init, p, k);
      assert init[..p] == pages[..p];
      assert init[p] == pages[p];
    }
  }

  lemma {:induction false} QuotesOfAt(items: seq<Item>, i: nat)
    requires i < |items|
    ensures QuotesOf(items)[i] == Quote(items[i].text, items[i].author)
    decreases |items|
  {
    if i < |items| - 1 {
      QuotesOfAt(items[..|items| - 1], i);
    }
  }

  /** The harvest returns one quote per item of the consumed pages, and the quote
      from item `k` of page `p + 1` sits after those of all earlier pages. */
  lemma HarvestOrder(source: seq<Page>, p: nat, k: nat)
    requires p < LiveCount(source) && k < |source[p].items|
    ensures |QuotesOf(Harvested(source))| == TotalItems(source[..LiveCount(source)])
    ensures TotalItems(source[..p]) + k < |QuotesOf(Harvested(source))|
    ensures QuotesOf(Harvested(source))[TotalItems(source[..p]) + k]
            == Quote(source[p].items[k].text, source[p].items[k].author)
  {
    var consumed := source[..LiveCount(source)];
    ItemsOfCount(consumed);
    PageQuoteAt(consumed, p, k);
    assert consumed[..p] == source[..p] && consumed[p] == source[p];
  }

  /** Item `k` of page `p` becomes the quote just after those of the earlier pages. */
  lemma PageQuoteAt(pages: seq<Page>, p: nat, k: nat)
    requires p < |pages| && k < |pages[p].items|
    ensures TotalItems(pages[..p]) + k < |QuotesOf(ItemsOf(pages))|
    ensures QuotesOf(ItemsOf(pages))[TotalItems(pages[..p]) + k] == Quote(pages[p].items[k].text, pages[p].items[k].author)
  {
    ItemsOfAt(pages, p, k);
    QuotesOfAt(ItemsOf(pages), TotalItems(pages[..p]) + k);
  }

  /** Reading items only adds the authors named by them. */
  lemma {:induction false} SightAllKeys(items: seq<Item>, authorPage: string -> AuthorPage,
                                        seen: map<string, AuthorDetails>)
    ensures SightAll(items, authorPage, seen).Keys == seen.Keys + AuthorsOf(items)
    decreases |items|
  {
    if items != [] {
      SightAllKeys(items[1..], authorPage, Sight(seen, items[0], authorPage));
      AuthorsOfCons(items);
    }
  }

  lemma AuthorsOfCons(items: seq<Item>)
    requires items != []
    ensures AuthorsOf(items) == {items[0].author} + AuthorsOf(items[1..])
  {
    forall a | a in AuthorsOf(items)
      ensures a in {items[0].author} + AuthorsOf(items[1..])
    {
      var i :| 0 <= i < |items| && items[i].author == a;
      if i > 0 {
        assert items[1..][i - 1].author == a;
      }
    }
    forall a | a in AuthorsOf(items[1..])
      ensures a in AuthorsOf(items)
    {
      var i :| 0 <= i < |items[1..]| && items[1..][i].author == a;
      assert items[i + 1].author == a;
    }
  }

  /** An author already entered keeps the entry, whatever is read later. */
  lemma {:induction false} SightAllKeeps(items: seq<Item>, authorPage: string -> AuthorPage,
                                         seen: map<string, AuthorDetails>, a: string)
    requires a in seen
    ensures a in SightAll(items, authorPage, seen)
    ensures SightAll(items, authorPage, seen)[a] == seen[a]
    decreases |items|
  {
    if items != [] {
      SightAllKeeps(items[1..], authorPage, Sight(seen, items[0], authorPage), a);
    }
  }

  /** An author's entry comes from the page linked by that author's first item. */
  lemma {:induction false} SightAllFirst(items: seq<Item>, authorPage: string -> AuthorPage,
                                         seen: map<string, AuthorDetails>, i: nat)
    requires i < |items| && items[i].author !in seen
    requires forall j :: 0 <= j < i ==> items[j].author != items[i].author
    ensures items[i].author in SightAll(items, authorPage, seen)
    ensures SightAll(items, authorPage, seen)[items[i].author] == Details(authorPage(items[i].url))
    decreases |items|
  {
    var next := Sight(seen, items[0], authorPage);
    if i == 0 {
      SightAllKeeps(items[1..], authorPage, next, items[0].author);
    } else {
      assert items[0].author != items[i].author;
      SightAllFirst(items[1..], authorPage, next, i - 1);
    }
  }

  /** Every author of a harvested quote has an entry in the harvested authors, and
      every entry belongs to a harvested quote; so the writer's `author_ids[author]`
      is defined for every harvested quote. */
  lemma HarvestedAuthorsKnown(source: seq<Page>, authorPage: string -> AuthorPage)
    ensures FirstSightings(Harvested(source), authorPage).Keys == AuthorsOf(Harvested(source))
    ensures forall i :: 0 <= i < |QuotesOf(Harvested(source))| ==>
              QuotesOf(Harvested(source))[i].author in FirstSightings(Harvested(source), authorPage)
  {
    var items := Harvested(source);
    SightAllKeys(items, authorPage, map[]);
    forall i | 0 <= i < |QuotesOf(items)|
      ensures QuotesOf(items)[i].author in FirstSightings(items, authorPage)
    {
      QuotesOfAt(items, i);
    }
  }

  /** An author's details are read at the first sighting only: the entry is the one
      from the first item naming the author ... */
  lemma FirstSightingWins(items: seq<Item>, authorPage: string -> AuthorPage, i: nat)
    requires i < |items|
    requires forall j :: 0 <= j < i ==> items[j].author != items[i].author
    ensures items[i].author in FirstSightings(items, authorPage)
    ensures FirstSightings(items, authorPage)[items[i].author] == Details(authorPage(items[i].url))
  {
    SightAllFirst(items, authorPage, map[], i);
  }

  /** ... and items read later leave an existing entry as it was. */
  lemma LaterSightingsKeep(items: seq<Item>, authorPage: string -> AuthorPage, n: nat, a: string)
    requires n <= |items|
    requires a in FirstSightings(items[..n], authorPage)
    ensures a in FirstSightings(items, authorPage)
    ensures FirstSightings(items, authorPage)[a] == FirstSightings(items[..n], authorPage)[a]
  {
    assert items == items[..n] + items[n..];
    SightAllAppend(items[..n], items[n..], authorPage, map[]);
    SightAllKeeps(items[n..], authorPage, FirstSightings(items[..n], authorPage), a);
  }

  /** The stored birth is the date, one space, the location, with whatever
      whitespace the author's page puts around either removed. */
  lemma BirthIgnoresPadding(a1: string, date: string, b1: string, a2: string, place: string, b2: string)
    requires Strings.AllSpace(a1) && Strings.AllSpace(b1) && Strings.AllSpace(a2) && Strings.AllSpace(b2)
    requires Strings.Trimmed(date) && Strings.Trimmed(place)
    ensures Birth(a1 + date + b1, a2 + place + b2) == date + " " + place
  {
    Strings.StripSurrounded(a1, date, b1);
    Strings.StripSurrounded(a2, place, b2);
  }
}

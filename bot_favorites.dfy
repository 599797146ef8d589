/** The bot's per-user favourites (`user_favorites` in `bot/bot.py`): a dict from
    Telegram user id to the list of author names the user added, filled by
    `add_to_favorites` and shown as buttons by `show_favorites`. */
module Favorites {
  import opened Strings
  import opened Callbacks
  import Replies

  /** No name occurs twice. */
  predicate NoDuplicates(names: seq<string>) {
    forall i, j :: 0 <= i < j < |names| ==> names[i] != names[j]
  }

  /** The list after adding `name`: appended when absent, unchanged otherwise. */
  function Added(names: seq<string>, name: string): seq<string> {
    if name in names then names else names + [name]
  }

  /** Adding keeps the earlier entries in order and leaves `name` in the list
      exactly once, given that no name was repeated before; adding a name already
      there changes nothing, so a second add is a no-op. */
  lemma AddedProperties(names: seq<string>, name: string)
    requires NoDuplicates(names)
    ensures var r := Added(names, name);
            && name in r && NoDuplicates(r)
            && r[..|names|] == names
            && (name in names ==> r == names)
            && (name !in names ==> r == names + [name])
            && Added(r, name) == r
  {
    var r := Added(names, name);
    assert r[..|names|] == names;
  }

  /** The inline button of one favourite: its name, and `fav_<name>` as data. */
  function FavoriteButton(name: string): (b: Replies.Button)
    ensures b.caption == name && FavPrefix <= b.data && ParseFav(b.data) == Before(name, '_')
  {
    Replies.Button(name, EncodeFav(name))
  }

  const FavoritesHeader: string := "Ваши избранные авторы:"
  const NoFavorites: string := "У вас нет избранных авторов."

  /** `f"Автор {author_name} добавлен в избранное."` */
  function AddedText(name: string): string {
    "Автор " + name + " добавлен в избранное."
  }

  /** `f"Автор {author_name} уже в избранном."` */
  function AlreadyText(name: string): string {
    "Автор " + name + " уже в избранном."
  }

  /** The module-level dict `user_favorites`. */
  class FavoritesStore {
    var lists: map<int, seq<string>>

    /** No list repeats a name, and no stored name holds an underscore, since every
        name comes out of `ParseAddFav`. */
    ghost predicate Valid()
      reads this
    {
      forall u :: u in lists ==>
        NoDuplicates(lists[u]) && forall i :: 0 <= i < |lists[u]| ==> '_' !in lists[u][i]
    }

    constructor ()
      ensures Valid() && lists == map[]
    {
      lists := map[];
    }

    /** The favourites of `user`, empty when the user has none yet. */
    function ListOf(user: int): seq<string>
      reads this
    {
      if user in lists then lists[user] else []
    }

    /** `add_to_favorites`: the name is read from the callback data; the user gets a
        list when missing, and the name is appended when it is not already there. */
    method AddToFavorites(data: string, user: int) returns (reply: string)
      requires Valid() && AddFavPrefix <= data
      modifies this
      ensures Valid()
      ensures var name := ParseAddFav(data);
              && lists == old(lists)[user := Added(old(ListOf(user)), name)]
              && reply == if name in old(ListOf(user)) then AlreadyText(name) else AddedText(name)
    {
      var name := ParseAddFav(data);
      if user !in lists {
        lists := lists[user := []];
      }
      if name !in lists[user] {
        lists := lists[user := lists[user] + [name]];
        reply := AddedText(name);
      } else {
        reply := AlreadyText(name);
      }
    }

    /** `show_favorites`: one button per favourite, in the order added, or the
        "no favourites" text when the user has none. */
    function ShowFavorites(user: int): (r: Replies.Reply)
      reads this
      ensures r.text == NoFavorites <==> ListOf(user) == []
      ensures |r.buttons| == |ListOf(user)|
      ensures forall i :: 0 <= i < |r.buttons| ==> r.buttons[i] == FavoriteButton(ListOf(user)[i])
    {
      var names := ListOf(user);
      if names != [] then
        Replies.Reply(FavoritesHeader, seq(|names|, i requires 0 <= i < |names| => FavoriteButton(names[i])))
      else
        Replies.Reply(NoFavorites, [])
    }

    /** Every favourite button opens the author it is labelled with: stored names
        have no underscore, so `fav_<name>` parses back to the name. */
    lemma ButtonsReopen(user: int)
      requires Valid()
      ensures forall i :: 0 <= i < |ShowFavorites(user).buttons| ==>
                ParseFav(ShowFavorites(user).buttons[i].data) == ShowFavorites(user).buttons[i].caption
    {
      forall i | 0 <= i < |ShowFavorites(user).buttons|
        ensures ParseFav(ShowFavorites(user).buttons[i].data) == ShowFavorites(user).buttons[i].caption
      {
        FavRoundTrip(ListOf(user)[i]);
      }
    }
  }
}

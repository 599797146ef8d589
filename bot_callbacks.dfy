/** The callback data of the bot's inline buttons in `bot/bot.py`: the search card's
    "add to favourites" button carries `add_fav_<name>`, read back with
    `data.split("_")[2]`, and a favourites button carries `fav_<name>`, read back
    with `data.split("_")[1]`. Both read only up to the first underscore of the
    name, so a name survives the round trip exactly when it has no underscore. */
module Callbacks {
  import opened Strings

  const AddFavPrefix: string := "add_fav_"
  const FavPrefix: string := "fav_"

  /** `f"add_fav_{full_name}"`. */
  function EncodeAddFav(name: string): (data: string)
    ensures AddFavPrefix <= data && data[|AddFavPrefix|..] == name
  {
    AddFavPrefix + name
  }

  /** `f"fav_{author}"`. */
  function EncodeFav(name: string): (data: string)
    ensures FavPrefix <= data && data[|FavPrefix|..] == name
  {
    FavPrefix + name
  }

  lemma AddFavParts(rest: string)
    ensures Split(AddFavPrefix + rest, '_') == ["add", "fav"] + Split(rest, '_')
  {
    assert AddFavPrefix + rest == "add" + ['_'] + ("fav" + ['_'] + rest);
    SplitAfterPart("fav", '_', rest);
    SplitAfterPart("add", '_', "fav" + ['_'] + rest);
  }

  lemma FavParts(rest: string)
    ensures Split(FavPrefix + rest, '_') == ["fav"] + Split(rest, '_')
  {
    assert FavPrefix + rest == "fav" + ['_'] + rest;
    SplitAfterPart("fav", '_', rest);
  }

  /** `callback_query.data.split("_")[2]`, for data the `add_fav_` handler accepts:
      the text after the prefix, up to its first underscore. */
  function ParseAddFav(data: string): (name: string)
    requires AddFavPrefix <= data
    ensures name == Before(data[|AddFavPrefix|..], '_')
  {
    var rest := data[|AddFavPrefix|..];
    assert data == AddFavPrefix + rest;
    AddFavParts(rest);
    SplitHead(rest, '_');
    Split(data, '_')[2]
  }

  /** `callback_query.data.split("_")[1]`, for data the `fav_` handler accepts:
      the text after the prefix, up to its first underscore. */
  function ParseFav(data: string): (name: string)
    requires FavPrefix <= data
    ensures name == Before(data[|FavPrefix|..], '_')
  {
    var rest := data[|FavPrefix|..];
    assert data == FavPrefix + rest;
    FavParts(rest);
    SplitHead(rest, '_');
    Split(data, '_')[1]
  }

  /** A name comes back from its `add_fav_` button exactly when it has no underscore. */
  lemma AddFavRoundTrip(name: string)
    ensures ParseAddFav(EncodeAddFav(name)) == name <==> '_' !in name
  {
  }

  /** A name with an underscore comes back cut at its first underscore. */
  lemma AddFavTruncates(name: string, k: nat)
    requires k < |name| && name[k] == '_' && '_' !in name[..k]
    ensures ParseAddFav(EncodeAddFav(name)) == name[..k]
  {
  }

  /** A name comes back from its `fav_` button exactly when it has no underscore. */
  lemma FavRoundTrip(name: string)
    ensures ParseFav(EncodeFav(name)) == name <==> '_' !in name
  {
  }

  /** A name with an underscore comes back cut at its first underscore. */
  lemma FavTruncates(name: string, k: nat)
    requires k < |name| && name[k] == '_' && '_' !in name[..k]
    ensures ParseFav(EncodeFav(name)) == name[..k]
  {
  }

  /** What the `add_fav_` handler stores is read back unchanged by the `fav_` handler:
      the stored name never holds an underscore. */
  lemma StoredNameReopens(data: string)
    requires AddFavPrefix <= data
    ensures ParseFav(EncodeFav(ParseAddFav(data))) == ParseAddFav(data)
  {
    FavRoundTrip(ParseAddFav(data));
  }
}

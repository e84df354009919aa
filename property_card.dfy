/** One card of the property list: whether it renders, which image it shows,
    and its favorite button, which goes through the favorites context. */
module PropertyCard {
  import opened Common
  import FavoritesCache

  const DefaultApiBase := "http://localhost:1337"
  const Placeholder := "/placeholder.png"
  const GenericError := "An error occurred."

  /** An uploaded image: its own `url` and, when the upload has one, the
      url of its small format (`formats?.small?.url`). */
  datatype Image = Image(url: string, smallUrl: Option<string>)

  /** The fields of a property that the card reads, in the flat shape it
      reads them. */
  datatype CardProperty = CardProperty(id: int, title: Option<string>, images: Option<seq<Image>>)

  /** `!property || !property.title` is false: the card renders. */
  predicate Renders(property: Option<CardProperty>) {
    property.Some? && Truthy(property.value.title)
  }

  /** `process.env.NEXT_PUBLIC_STRAPI_API_URL || 'http://localhost:1337'`. */
  function ApiBase(env: Option<string>): (base: string)
    ensures base != ""
    ensures Truthy(env) ==> base == env.value
    ensures !Truthy(env) ==> base == DefaultApiBase
  {
    OrElse(env, DefaultApiBase)
  }

  /** `property.images?.[0]`. */
  function FirstImage(property: CardProperty): Option<Image> {
    if property.images.Some? && |property.images.value| > 0 then Some(property.images.value[0]) else None
  }

  /** The image shown: the placeholder without an image; otherwise the API
      base followed by the small format's url when it is non-empty, else by
      the image's own url. */
  function ImageUrl(property: CardProperty, env: Option<string>): (src: string)
    ensures FirstImage(property).None? ==> src == Placeholder
    ensures FirstImage(property).Some? ==>
              var image := FirstImage(property).value;
              |src| >= |ApiBase(env)| && src[..|ApiBase(env)|] == ApiBase(env)
              && src[|ApiBase(env)|..] == (if Truthy(image.smallUrl) then image.smallUrl.value else image.url)
  {
    match FirstImage(property)
    case None => Placeholder
    case Some(image) => ApiBase(env) + OrElse(image.smallUrl, image.url)
  }

  /** The message a failed toggle shows: what the favorites context threw.
      Those messages are never empty, so the card's own fallback text is
      never the one shown. */
  function ToggleFailure(auth: FavoritesCache.AuthView, reply: FavoritesCache.MutationReply, fallback: string): (message: string)
    requires fallback != "" && fallback != GenericError
    ensures message != ""
    ensures message == GenericError ==> reply.Rejected? && reply.errorMessage == Some(GenericError)
  {
    if !FavoritesCache.SignedIn(auth) then FavoritesCache.NotAuthenticated
    else if reply.Rejected? then OrElse(reply.errorMessage, fallback)
    else fallback
  }

  /** The favorite button's local state. */
  class FavoriteButton {
    const propertyId: int
    var localLoading: bool
    var error: Option<string>

    constructor (id: int)
      ensures propertyId == id && !localLoading && error.None?
    {
      propertyId := id;
      localLoading := false;
      error := None;
    }

    /** `disabled={localLoading || favoritesLoading}`. */
    predicate Disabled(favorites: FavoritesCache.FavoritesProvider)
      reads this, favorites
    {
      localLoading || favorites.isLoading
    }

    /** `handleFavoriteToggle`; `removed` is the id handed to `onRemove`,
        when the card has that callback and it is called. */
    method HandleFavoriteToggle(auth: FavoritesCache.AuthView, favorites: FavoritesCache.FavoritesProvider,
                                reply: FavoritesCache.MutationReply, hasOnRemove: bool)
      returns (removed: Option<int>)
      modifies this, favorites
      ensures favorites.isLoading == old(favorites.isLoading)
      ensures auth.user.None? || old(Disabled(favorites)) ==>
                localLoading == old(localLoading) && error == old(error)
                && favorites.favoriteIds == old(favorites.favoriteIds) && removed.None?
      ensures !(auth.user.None? || old(Disabled(favorites))) ==>
                !localLoading
                && (old(favorites.IsFavorited(propertyId)) ==>
                      var thrown := !FavoritesCache.SignedIn(auth) || reply.Rejected?;
                      && (thrown ==> favorites.favoriteIds == old(favorites.favoriteIds) && removed.None?
                                     && error == Some(ToggleFailure(auth, reply, FavoritesCache.RemoveFailed)))
                      && (!thrown ==> favorites.favoriteIds == old(favorites.favoriteIds) - {propertyId}
                                      && error.None?
                                      && removed == if hasOnRemove then Some(propertyId) else None))
                && (!old(favorites.IsFavorited(propertyId)) ==>
                      var thrown := !FavoritesCache.SignedIn(auth) || reply.Rejected?;
                      && removed.None?
                      && (thrown ==> favorites.favoriteIds == old(favorites.favoriteIds)
                                     && error == Some(ToggleFailure(auth, reply, FavoritesCache.AddFailed)))
                      && (!thrown ==> favorites.favoriteIds == old(favorites.favoriteIds) + {propertyId}
                                      && error.None?))
    {
      if auth.user.None? || localLoading || favorites.isLoading {
        return None;
      }
      var currentIsFavorited := favorites.IsFavorited(propertyId);
      localLoading := true;
      error := None;
      removed := None;
      var outcome;
      if currentIsFavorited {
        var path;
        outcome, path := favorites.RemoveFavorite(auth, propertyId, reply);
        if outcome.Done? && hasOnRemove {
          removed := Some(propertyId);
        }
      } else {
        outcome := favorites.AddFavorite(auth, propertyId, reply);
      }
      if outcome.Thrown? {
        error := Some(if outcome.message != "" then outcome.message else GenericError);
      }
      localLoading := false;
    }
  }

  /** A click on a card that is not busy flips its favorite state when the
      server accepts, and the button is enabled again afterwards. */
  method ToggleTwice(auth: FavoritesCache.AuthView, loaded: seq<FavoritesCache.FavoriteEntry>, id: int)
    returns (favoritedAfterFirst: bool, favoritedAfterSecond: bool, disabledAfter: bool)
    requires FavoritesCache.SignedIn(auth) && !auth.loading
    ensures favoritedAfterFirst == (id !in FavoritesCache.PropertyIds(loaded))
    ensures favoritedAfterSecond == (id in FavoritesCache.PropertyIds(loaded))
    ensures !disabledAfter
  {
    var favorites := new FavoritesCache.FavoritesProvider();
    var request := favorites.BeginLoad(auth);
    favorites.FinishLoad(Some(loaded));
    var button := new FavoriteButton(id);
    var removed := button.HandleFavoriteToggle(auth, favorites, FavoritesCache.Accepted, true);
    favoritedAfterFirst := favorites.IsFavorited(id);
    removed := button.HandleFavoriteToggle(auth, favorites, FavoritesCache.Accepted, true);
    favoritedAfterSecond := favorites.IsFavorited(id);
    disabledAfter := button.Disabled(favorites);
  }
}

/** The browser-side favorites context: the set of favorited property ids of
    the signed-in user and its loading flag, kept in step with the auth state
    and with the add/remove requests sent to the backend. */
module FavoritesCache {
  import opened Common
  import UserJson
  import Decimal

  /** What the context reads from the auth context: `user`, `jwt` and the
      auth `isLoading` flag. */
  datatype AuthView = AuthView(user: Option<UserJson.AuthUser>, jwt: Option<string>, loading: bool)

  /** `user && jwt` in JavaScript. */
  predicate SignedIn(auth: AuthView) {
    auth.user.Some? && Truthy(auth.jwt)
  }

  /** `fav.property?.id` of one row of the initial list response. */
  datatype JsonId = NumericId(n: int) | NonNumericId
  datatype FavoriteEntry = FavoriteEntry(propertyId: Option<JsonId>)

  /** The answer to a POST or DELETE: `response.ok`, or the body's
      `error.message` when there is one. */
  datatype MutationReply = Accepted | Rejected(errorMessage: Option<string>)

  const NotAuthenticated := "User not authenticated"
  const AddFailed := "Failed to add favorite"
  const RemoveFailed := "Failed to remove favorite"

  /** The ids kept by the initial load: the numeric `property.id` of each row;
      rows without one are dropped. */
  function PropertyIds(entries: seq<FavoriteEntry>): (ids: set<int>)
    ensures forall n :: n in ids <==>
              exists i :: 0 <= i < |entries| && entries[i].propertyId == Some(NumericId(n))
  {
    if entries == [] then {}
    else
      var rest := PropertyIds(entries[1..]);
      assert forall i :: 1 <= i < |entries| ==> entries[i] == entries[1..][i - 1];
      match entries[0].propertyId
      case Some(NumericId(n)) => {n} + rest
      case _ => rest
  }

  /** The path parameter of the DELETE request for property `p`. */
  function RemovePathParameter(p: int): (param: string)
    ensures Decimal.ParseInt(param) == Some(p)
  {
    Decimal.ParseIntOfDecimal(p);
    Decimal.DecimalString(p)
  }

  class FavoritesProvider {
    var favoriteIds: set<int>
    var isLoading: bool

    constructor ()
      ensures favoriteIds == {} && isLoading
    {
      favoriteIds := {};
      isLoading := true;
    }

    /** The load effect up to the request: waits for auth, clears the cache
        of a signed-out session, or starts loading and answers with the
        user id the list request filters on. */
    method BeginLoad(auth: AuthView) returns (request: Option<int>)
      modifies this
      ensures auth.loading ==> isLoading && favoriteIds == old(favoriteIds) && request.None?
      ensures !auth.loading && !SignedIn(auth) ==> !isLoading && favoriteIds == {} && request.None?
      ensures !auth.loading && SignedIn(auth) ==>
                isLoading && favoriteIds == old(favoriteIds) && request == Some(auth.user.value.id)
    {
      if auth.loading {
        isLoading := true;
        return None;
      }
      if !SignedIn(auth) {
        favoriteIds := {};
        isLoading := false;
        return None;
      }
      isLoading := true;
      request := Some(auth.user.value.id);
    }

    /** The load effect when the list request settles: `None` is a failed
        request, which leaves the cache as it was. */
    method FinishLoad(reply: Option<seq<FavoriteEntry>>)
      modifies this
      ensures !isLoading
      ensures reply.Some? ==> favoriteIds == PropertyIds(reply.value)
      ensures reply.None? ==> favoriteIds == old(favoriteIds)
    {
      if reply.Some? {
        favoriteIds := PropertyIds(reply.value);
      }
      isLoading := false;
    }

    /** `addFavorite(propertyId)`. */
    method AddFavorite(auth: AuthView, propertyId: int, reply: MutationReply) returns (outcome: Outcome)
      modifies this
      ensures isLoading == old(isLoading)
      ensures !SignedIn(auth) ==> outcome == Thrown(NotAuthenticated) && favoriteIds == old(favoriteIds)
      ensures SignedIn(auth) && reply.Rejected? ==>
                outcome == Thrown(OrElse(reply.errorMessage, AddFailed)) && favoriteIds == old(favoriteIds)
      ensures SignedIn(auth) && reply.Accepted? ==>
                outcome == Done && favoriteIds == old(favoriteIds) + {propertyId}
    {
      if !SignedIn(auth) {
        return Thrown(NotAuthenticated);
      }
      if reply.Rejected? {
        return Thrown(OrElse(reply.errorMessage, AddFailed));
      }
      favoriteIds := favoriteIds + {propertyId};
      outcome := Done;
    }

    /** `removeFavorite(propertyId)`; `path` is the parameter of the DELETE
        request, when one is sent. */
    method RemoveFavorite(auth: AuthView, propertyId: int, reply: MutationReply)
      returns (outcome: Outcome, path: Option<string>)
      modifies this
      ensures isLoading == old(isLoading)
      ensures !SignedIn(auth) ==>
                outcome == Thrown(NotAuthenticated) && path.None? && favoriteIds == old(favoriteIds)
      ensures SignedIn(auth) ==> path == Some(RemovePathParameter(propertyId))
      ensures SignedIn(auth) && reply.Rejected? ==>
                outcome == Thrown(OrElse(reply.errorMessage, RemoveFailed)) && favoriteIds == old(favoriteIds)
      ensures SignedIn(auth) && reply.Accepted? ==>
                outcome == Done && favoriteIds == old(favoriteIds) - {propertyId}
    {
      if !SignedIn(auth) {
        return Thrown(NotAuthenticated), None;
      }
      path := Some(RemovePathParameter(propertyId));
      if reply.Rejected? {
        return Thrown(OrElse(reply.errorMessage, RemoveFailed)), path;
      }
      favoriteIds := favoriteIds - {propertyId};
      outcome := Done;
    }

    /** `isFavorited(propertyId)`: membership in the cache. */
    function IsFavorited(propertyId: int): bool
      reads this
    {
      propertyId in favoriteIds
    }
  }

  /** A signed-in session loads its favorites, then adds and removes `p`:
      `p` is favorited after the add and not after the remove, adding twice
      is the same as adding once, and the other loaded ids stay. */
  method AddThenRemove(auth: AuthView, loaded: seq<FavoriteEntry>, p: int)
    returns (afterAdd: bool, afterSecondAdd: set<int>, afterRemove: bool, others: set<int>)
    requires SignedIn(auth) && !auth.loading
    ensures afterAdd && !afterRemove
    ensures afterSecondAdd == PropertyIds(loaded) + {p}
    ensures others == PropertyIds(loaded) - {p}
  {
    var cache := new FavoritesProvider();
    var request := cache.BeginLoad(auth);
    cache.FinishLoad(Some(loaded));
    var added := cache.AddFavorite(auth, p, Accepted);
    afterAdd := cache.IsFavorited(p);
    added := cache.AddFavorite(auth, p, Accepted);
    afterSecondAdd := cache.favoriteIds;
    var removed, path := cache.RemoveFavorite(auth, p, Accepted);
    afterRemove := cache.IsFavorited(p);
    others := cache.favoriteIds;
  }

  /** A signed-out session ends with an empty, settled cache whatever was
      cached before, and never sends the list request. */
  method SignOutClears(previous: seq<FavoriteEntry>, signedIn: AuthView)
    returns (ids: set<int>, loading: bool, request: Option<int>)
    requires SignedIn(signedIn) && !signedIn.loading
    ensures ids == {} && !loading && request.None?
  {
    var cache := new FavoritesProvider();
    var first := cache.BeginLoad(signedIn);
    cache.FinishLoad(Some(previous));
    request := cache.BeginLoad(AuthView(None, None, false));
    ids, loading := cache.favoriteIds, cache.isLoading;
  }
}

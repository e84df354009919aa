/** The auth context: the signed-in user and token, restored from the
    browser's local storage on start-up and written there on login. */
module AuthSession {
  import opened Common
  import opened UserJson

  const JwtKey := "strapi_jwt"
  const UserKey := "strapi_user"

  type Storage = map<string, string>

  /** `localStorage.getItem(key)`, with `None` for null. */
  function GetItem(storage: Storage, key: string): Option<string> {
    if key in storage then Some(storage[key]) else None
  }

  class AuthProvider {
    var user: Option<AuthUser>
    var jwt: Option<string>
    var isLoading: bool
    var storage: Storage
    var navigation: seq<string>

    /** The initial state, over the browser's current local storage. */
    constructor (browserStorage: Storage)
      ensures user.None? && jwt.None? && isLoading
      ensures storage == browserStorage && navigation == []
    {
      user, jwt, isLoading := None, None, true;
      storage := browserStorage;
      navigation := [];
    }

    /** The mount effect: with both keys holding text, take the token, then
        parse the user; a parse error clears both keys after the token has
        already been taken. Loading ends in every case. */
    method RestoreSession()
      modifies this
      ensures !isLoading && navigation == old(navigation)
      ensures !(Truthy(GetItem(old(storage), JwtKey)) && Truthy(GetItem(old(storage), UserKey))) ==>
                user == old(user) && jwt == old(jwt) && storage == old(storage)
      ensures Truthy(GetItem(old(storage), JwtKey)) && Truthy(GetItem(old(storage), UserKey)) ==>
                var parsed := DecodeUser(old(storage)[UserKey]);
                && jwt == Some(old(storage)[JwtKey])
                && (parsed.Some? ==> user == parsed && storage == old(storage))
                && (parsed.None? ==> user == old(user) && storage == old(storage) - {JwtKey, UserKey})
    {
      var storedJwt := GetItem(storage, JwtKey);
      var storedUser := GetItem(storage, UserKey);
      if Truthy(storedJwt) && Truthy(storedUser) {
        jwt := storedJwt;
        var parsed := DecodeUser(storedUser.value);
        if parsed.Some? {
          user := parsed;
        } else {
          storage := storage - {JwtKey};
          storage := storage - {UserKey};
        }
      }
      isLoading := false;
    }

    method Login(token: string, userData: AuthUser)
      modifies this
      ensures jwt == Some(token) && user == Some(userData)
      ensures storage == old(storage)[JwtKey := token][UserKey := EncodeUser(userData)]
      ensures isLoading == old(isLoading) && navigation == old(navigation)
    {
      jwt := Some(token);
      user := Some(userData);
      storage := storage[JwtKey := token];
      storage := storage[UserKey := EncodeUser(userData)];
    }

    method Logout()
      modifies this
      ensures jwt.None? && user.None?
      ensures storage == old(storage) - {JwtKey, UserKey}
      ensures navigation == old(navigation) + [LoginPath]
      ensures isLoading == old(isLoading)
    {
      jwt := None;
      user := None;
      storage := storage - {JwtKey};
      storage := storage - {UserKey};
      navigation := navigation + [LoginPath];
    }
  }

  /** A login is remembered: a later page load over the same storage restores
      the same token and user. An empty token is not, since `storedJwt &&`
      treats it as absent. */
  method ReloadAfterLogin(browserStorage: Storage, token: string, userData: AuthUser)
    returns (restoredUser: Option<AuthUser>, restoredJwt: Option<string>)
    ensures token != "" ==> restoredUser == Some(userData) && restoredJwt == Some(token)
    ensures token == "" ==> restoredUser.None? && restoredJwt.None?
  {
    var session := new AuthProvider(browserStorage);
    session.RestoreSession();
    session.Login(token, userData);
    DecodeEncodeUser(userData);
    var reloaded := new AuthProvider(session.storage);
    reloaded.RestoreSession();
    restoredUser, restoredJwt := reloaded.user, reloaded.jwt;
  }

  /** After logout a page load restores nobody. */
  method ReloadAfterLogout(browserStorage: Storage)
    returns (restoredUser: Option<AuthUser>, restoredJwt: Option<string>, storedKeys: set<string>)
    ensures restoredUser.None? && restoredJwt.None?
    ensures JwtKey !in storedKeys && UserKey !in storedKeys
  {
    var session := new AuthProvider(browserStorage);
    session.RestoreSession();
    session.Logout();
    var reloaded := new AuthProvider(session.storage);
    reloaded.RestoreSession();
    restoredUser, restoredJwt, storedKeys := reloaded.user, reloaded.jwt, reloaded.storage.Keys;
  }

  /** Stored data that does not parse is cleared; the token is taken anyway,
      so the session holds a token without a user. */
  method RestoreCorrupt(token: string, storedUser: string)
    returns (restoredUser: Option<AuthUser>, restoredJwt: Option<string>, remaining: Storage)
    requires token != "" && storedUser != "" && DecodeUser(storedUser).None?
    ensures restoredUser.None? && restoredJwt == Some(token) && remaining == map[]
  {
    var session := new AuthProvider(map[JwtKey := token, UserKey := storedUser]);
    session.RestoreSession();
    restoredUser, restoredJwt, remaining := session.user, session.jwt, session.storage;
  }
}

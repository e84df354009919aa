/** The signed-in user record and the JSON text it is stored as in the
    browser's local storage (`JSON.stringify(userData)` on login,
    `JSON.parse(storedUser)` on restore). */
module UserJson {
  import opened Common
  import Decimal

  /** `AuthUser` of the auth context: `{ id, username, email }`. */
  datatype AuthUser = AuthUser(id: int, username: string, email: string)

  const IdKey := "{\"id\":"
  const UsernameKey := ",\"username\":\""
  const EmailKey := ",\"email\":\""

  /** JSON string escaping of the two characters that would end or break a
      string literal. */
  function EscapeChar(c: char): string {
    if c == '"' then "\\\"" else if c == '\\' then "\\\\" else [c]
  }

  function Escape(s: string): string {
    if s == [] then [] else EscapeChar(s[0]) + Escape(s[1..])
  }

  /** `JSON.stringify` of a user, fields in declaration order. */
  function EncodeUser(u: AuthUser): string {
    IdKey + (Decimal.DecimalString(u.id)
    + (UsernameKey + (Escape(u.username) + "\""
    + (EmailKey + (Escape(u.email) + "\"" + "}")))))
  }

  predicate StartsWith(s: string, prefix: string) {
    |prefix| <= |s| && s[..|prefix|] == prefix
  }

  /** Reads the body of a JSON string literal whose opening quote has been
      consumed: gives the unescaped text and what follows the closing quote. */
  function ScanString(t: string): Option<(string, string)>
    decreases |t|
  {
    if t == [] then None
    else if t[0] == '"' then Some(([], t[1..]))
    else if t[0] == '\\' then
      if |t| < 2 || !(t[1] == '"' || t[1] == '\\') then None
      else match ScanString(t[2..])
        case None => None
        case Some(p) => Some(([t[1]] + p.0, p.1))
    else match ScanString(t[1..])
      case None => None
      case Some(p) => Some(([t[0]] + p.0, p.1))
  }

  /** `JSON.parse` of a stored user; `None` is the parse error that
      `JSON.parse` throws. */
  function DecodeUser(s: string): Option<AuthUser> {
    if !StartsWith(s, IdKey) then None
    else match Decimal.ScanInteger(s[|IdKey|..])
      case None => None
      case Some(idRest) =>
        var (id, r1) := idRest;
        if !StartsWith(r1, UsernameKey) then None
        else match ScanString(r1[|UsernameKey|..])
          case None => None
          case Some(nameRest) =>
            var (name, r2) := nameRest;
            if !StartsWith(r2, EmailKey) then None
            else match ScanString(r2[|EmailKey|..])
              case None => None
              case Some(emailRest) =>
                var (email, r3) := emailRest;
                if r3 == "}" then Some(AuthUser(id, name, email)) else None
  }

  /** An escaped string followed by a closing quote scans back to the
      original text and leaves what follows. */
  lemma {:induction false} ScanEscaped(s: string, rest: string)
    ensures ScanString(Escape(s) + "\"" + rest) == Some((s, rest))
    decreases |s|
  {
    if s == [] {
      assert Escape(s) + "\"" + rest == "\"" + rest;
    } else {
      ScanEscaped(s[1..], rest);
      var tail := Escape(s[1..]) + "\"" + rest;
      assert Escape(s) + "\"" + rest == EscapeChar(s[0]) + tail;
      if s[0] == '"' || s[0] == '\\' {
        assert (EscapeChar(s[0]) + tail)[2..] == tail;
      } else {
        assert (EscapeChar(s[0]) + tail)[1..] == tail;
      }
      assert [s[0]] + s[1..] == s;
    }
  }

  /** What login stores is what a later restore reads back. */
  lemma DecodeEncodeUser(u: AuthUser)
    ensures DecodeUser(EncodeUser(u)) == Some(u)
  {
    var tailEmail := Escape(u.email) + "\"" + "}";
    var tailName := Escape(u.username) + "\"" + (EmailKey + tailEmail);
    var tailId := Decimal.DecimalString(u.id) + (UsernameKey + tailName);
    var s := EncodeUser(u);
    assert StartsWith(IdKey + tailId, IdKey) && (IdKey + tailId)[|IdKey|..] == tailId;
    assert s[|IdKey|..] == tailId;
    Decimal.ScanIntegerOfDecimalString(u.id, UsernameKey + tailName);
    assert StartsWith(UsernameKey + tailName, UsernameKey) && (UsernameKey + tailName)[|UsernameKey|..] == tailName;
    ScanEscaped(u.username, EmailKey + tailEmail);
    assert StartsWith(EmailKey + tailEmail, EmailKey) && (EmailKey + tailEmail)[|EmailKey|..] == tailEmail;
    ScanEscaped(u.email, "}");
  }
}

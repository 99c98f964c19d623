/** The browser's session store (`frontend/src/context/authStore.js`): the
    signed-in user, the token and a loading flag, mirrored into `localStorage`.
    `U` is the client's user object; `stringify` and `parse` stand for
    `JSON.stringify` and `JSON.parse` on it, None standing for `null`. */
module AuthStore {
  import opened Wrappers

  /** What `JSON.parse` does with a text: a value (None for `null`), or it
      throws a `SyntaxError`, as it does on "undefined". */
  datatype Parsed<U> = Value(value: Option<U>) | SyntaxError

  const UserKey := "user"
  const TokenKey := "token"

  /** `JSON.parse(localStorage.getItem('user') || 'null')`: a missing or empty
      entry reads as `null`; any other entry is parsed, and may throw. */
  function StoredUser<U>(storage: map<string, string>, parse: string -> Parsed<U>): (u: Parsed<U>)
    ensures UserKey !in storage ==> u == parse("null")
    ensures UserKey in storage && storage[UserKey] == "" ==> u == parse("null")
    ensures UserKey in storage && storage[UserKey] != "" ==> u == parse(storage[UserKey])
  {
    if UserKey in storage && storage[UserKey] != "" then parse(storage[UserKey]) else parse("null")
  }

  /** `localStorage.getItem('token')`. */
  function StoredToken(storage: map<string, string>): (t: Option<string>)
    ensures t.Some? <==> TokenKey in storage
    ensures t.Some? ==> t.value == storage[TokenKey]
  {
    if TokenKey in storage then Some(storage[TokenKey]) else None
  }

  class Store<U> {
    var user: Option<U>
    var token: Option<string>
    var isLoading: bool
    /** `localStorage`, as far as this store touches it. */
    var storage: map<string, string>

    /** The store as the page load creates it from what `localStorage` holds,
        once the user entry has parsed (see `Load`). */
    constructor (storage: map<string, string>, parse: string -> Parsed<U>)
      requires parse("null") == Value(None) && StoredUser(storage, parse).Value?
      ensures this.storage == storage
      ensures user == StoredUser(storage, parse).value && token == StoredToken(storage) && !isLoading
      ensures UserKey !in storage ==> user.None?
    {
      this.storage := storage;
      user := StoredUser(storage, parse).value;
      token := StoredToken(storage);
      isLoading := false;
    }

    method SetUser(u: Option<U>)
      modifies this`user
      ensures user == u
    {
      user := u;
    }

    method SetToken(t: Option<string>)
      modifies this`token
      ensures token == t
    {
      token := t;
    }

    method SetLoading(b: bool)
      modifies this`isLoading
      ensures isLoading == b
    {
      isLoading := b;
    }

    /** `login(user, token)`: both entries are written, then both fields set. */
    method Login(u: U, t: string, stringify: U -> string)
      modifies this`user, this`token, this`storage
      ensures user == Some(u) && token == Some(t)
      ensures storage == old(storage)[UserKey := stringify(u)][TokenKey := t]
    {
      storage := storage[UserKey := stringify(u)];
      storage := storage[TokenKey := t];
      user := Some(u);
      token := Some(t);
    }

    /** `logout()`: both entries are removed and both fields cleared. */
    method Logout()
      modifies this`user, this`token, this`storage
      ensures user.None? && token.None?
      ensures storage == old(storage) - {UserKey, TokenKey}
      ensures UserKey !in storage && TokenKey !in storage
      ensures !IsAuthenticated()
    {
      storage := storage - {UserKey, TokenKey};
      user := None;
      token := None;
    }

    /** `isAuthenticated()`: `!!token && !!user`. */
    predicate IsAuthenticated()
      reads this`user, this`token
    {
      token.Some? && token.value != "" && user.Some?
    }
  }

  /** The page load: the store module's initialiser throws when the user entry
      does not parse, and no store is created; otherwise the store as the
      constructor builds it. */
  method Load<U>(storage: map<string, string>, parse: string -> Parsed<U>) returns (s: Option<Store<U>>)
    requires parse("null") == Value(None)
    ensures s.None? <==> StoredUser(storage, parse).SyntaxError?
    ensures s.Some? ==> fresh(s.value) && s.value.storage == storage && !s.value.isLoading
    ensures s.Some? ==> s.value.user == StoredUser(storage, parse).value && s.value.token == StoredToken(storage)
  {
    if StoredUser(storage, parse).SyntaxError? {
      return None;
    }
    var store := new Store(storage, parse);
    s := Some(store);
  }

  /** A page reload after `login(u, t)` restores the same session, provided the
      user object survives a JSON round trip. */
  lemma ReloadAfterLogin<U>(storage: map<string, string>, u: U, t: string,
                            stringify: U -> string, parse: string -> Parsed<U>)
    requires parse(stringify(u)) == Value(Some(u)) && stringify(u) != ""
    ensures var s := storage[UserKey := stringify(u)][TokenKey := t];
      StoredUser(s, parse) == Value(Some(u)) && StoredToken(s) == Some(t)
  {
    var s := storage[UserKey := stringify(u)][TokenKey := t];
    assert UserKey != TokenKey;
    assert s[UserKey] == stringify(u);
  }

  /** A reload after `login` with a user whose JSON text does not parse back
      (`login(undefined, t)` stores the text "undefined") throws on load. */
  lemma ReloadAfterUnparsableLogin<U>(storage: map<string, string>, u: U, t: string,
                                      stringify: U -> string, parse: string -> Parsed<U>)
    requires parse(stringify(u)).SyntaxError? && stringify(u) != ""
    ensures StoredUser(storage[UserKey := stringify(u)][TokenKey := t], parse).SyntaxError?
  {
    var s := storage[UserKey := stringify(u)][TokenKey := t];
    assert UserKey != TokenKey;
    assert s[UserKey] == stringify(u);
  }

  /** A page reload after `logout()` starts signed out. */
  lemma ReloadAfterLogout<U>(storage: map<string, string>, parse: string -> Parsed<U>)
    requires parse("null") == Value(None)
    ensures var s := storage - {UserKey, TokenKey};
      StoredUser(s, parse) == Value(None) && StoredToken(s).None?
  {
  }

  /** Signed in after a reload exactly when a non-empty token and a user object were stored. */
  lemma AuthenticatedAfterReload<U>(storage: map<string, string>, parse: string -> Parsed<U>)
    requires parse("null") == Value(None)
    ensures (StoredToken(storage).Some? && StoredToken(storage).value != ""
             && StoredUser(storage, parse).Value? && StoredUser(storage, parse).value.Some?)
        <==> (TokenKey in storage && storage[TokenKey] != "" && UserKey in storage && storage[UserKey] != ""
              && parse(storage[UserKey]).Value? && parse(storage[UserKey]).value.Some?)
  {
  }
}

/**
 * Models crates/uv-auth/src/store.rs: the plain-text credential store, its most-specific-prefix
 * lookup, and the wire form in which its entries are written to and read from a TOML file.
 */
module TextStore {
  import opened Wrappers
  import opened Utf8
  import opened Realm
  import opened Credentials

  /** A service URL; `extra` stands for the query and fragment, which only equality looks at. */
  datatype Service = Service(realm: Realm, path: string, extra: string)

  datatype Key = Key(service: Service, username: Option<string>)

  type Store = map<Key, Credentials>

  function UsernameOf(c: Credentials): Option<string> {
    match c
    case Basic(username, _) => username
    case Bearer(_) => None
  }

  function EntryAt(store: Store, key: Key): Option<Credentials> {
    if key in store then Some(store[key]) else None
  }

  /** Every entry is filed under the username of its credentials, which is never empty. */
  ghost predicate Consistent(store: Store) {
    forall k :: k in store ==> k.username == UsernameOf(store[k]) && ValidUsername(store[k])
  }

  /** `Service::check_scheme`: a URL is a service if it is secure or local. */
  predicate IsService(url: Service) {
    || url.realm.scheme == "https"
    || (url.realm.scheme == "http" && (url.realm.host == Some("localhost") || url.realm.host == Some("127.0.0.1")))
  }

  ghost predicate IsSecure(url: Service) {
    url.realm.scheme == "https" ||
    (url.realm.scheme == "http" && url.realm.host in {Some("localhost"), Some("127.0.0.1")})
  }

  /** The entry is in the realm of the request, at a prefix of its path, for any username given. */
  predicate Covers(k: Key, url: Service, username: Option<string>) {
    && k.service.realm == url.realm
    && k.service.path <= url.path
    && (username.Some? ==> username == k.username)
  }

  ghost predicate IsMostSpecific(store: Store, k: Key, url: Service, username: Option<string>) {
    && k in store && Covers(k, url, NewUsername(username))
    && forall k' :: k' in store && Covers(k', url, username) ==> |k'.service.path| <= |k.service.path|
  }

  /** What `get_credentials` promises, for every order in which the entries may be visited. */
  ghost predicate IsLookup(store: Store, url: Service, username: Option<string>, r: Option<Credentials>) {
    match r
    case Some(c) => exists k :: IsMostSpecific(store, k, url, username) && store[k] == c
    case None => forall k :: k in store ==> !Covers(k, url, username)
  }

  class TextCredentialStore {
    var credentials: Store

    ghost predicate Valid()
      reads this
    {
      Consistent(credentials)
    }

    constructor ()
      ensures Valid() && credentials == map[]
    {
      credentials := map[];
    }

    /** Returns the credentials that were replaced, if any. */
    method Insert(service: Service, c: Credentials) returns (replaced: Option<Credentials>)
      requires Valid() && ValidUsername(c)
      modifies this
      ensures Valid() && credentials == old(credentials)[Key(service, UsernameOf(c)) := c]
      ensures replaced == EntryAt(old(credentials), Key(service, UsernameOf(c)))
    {
      var key := Key(service, UsernameOf(c));
      replaced := EntryAt(credentials, key);
      credentials := credentials[key := c];
    }

    /** Returns the credentials that were removed, if any. */
    method Remove(service: Service, username: Option<string>) returns (removed: Option<Credentials>)
      requires Valid()
      modifies this
      ensures Valid() && credentials == old(credentials) - {Key(service, username)}
      ensures removed == EntryAt(old(credentials), Key(service, username))
    {
      var key := Key(service, username);
      removed := EntryAt(credentials, key);
      credentials := credentials - {key};
    }

    /** `order` is the order in which the hash map happens to yield its keys. */
    method GetCredentials(url: Service, username: Option<string>, order: seq<Key>) returns (r: Option<Credentials>)
      requires Valid()
      requires forall k :: k in order <==> k in credentials
      ensures IsLookup(credentials, url, username, r)
      ensures r.Some? ==> exists k :: k in credentials && credentials[k] == r.value && k.service.realm == url.realm
                                      && k.service.path <= url.path
                                      && (username.Some? && username.value != "" ==> k.username == username)
      ensures forall k :: r.None? && k in credentials ==>
        k.service.realm != url.realm || !(k.service.path <= url.path) || (username.Some? && k.username != username)
      ensures var key := Key(url, if username == Some("") then None else username);
        IsSecure(url) && key in credentials ==> r == Some(credentials[key])
    {
      var exact := Key(url, NewUsername(username));
      if IsService(url) && exact in credentials {
        assert IsMostSpecific(credentials, exact, url, username);
        return Some(credentials[exact]);
      }
      var best := Best(order, url, username);
      if best.Some? {
        assert IsMostSpecific(credentials, best.value, url, username);
        return Some(credentials[best.value]);
      }
      return None;
    }
  }

  /** The loop of `get_credentials`: the covering key with the longest path, the first of equals. */
  method Best(order: seq<Key>, url: Service, username: Option<string>) returns (best: Option<Key>)
    ensures best.Some? ==> best.value in order && Covers(best.value, url, username)
    ensures best.Some? ==> forall k :: k in order && Covers(k, url, username) ==>
      |k.service.path| <= |best.value.service.path|
    ensures best.None? ==> forall k :: k in order ==> !Covers(k, url, username)
  {
    best := None;
    for i := 0 to |order|
      invariant best.Some? ==> best.value in order && Covers(best.value, url, username)
      invariant best.Some? ==> forall j :: 0 <= j < i && Covers(order[j], url, username) ==>
                  |order[j].service.path| <= |best.value.service.path|
      invariant best.None? ==> forall j :: 0 <= j < i ==> !Covers(order[j], url, username)
    {
      if Covers(order[i], url, username) {
        if best.None? || |order[i].service.path| > |best.value.service.path| {
          best := Some(order[i]);
        }
      }
    }
  }

  // ---------------------------------------------------------------------------------------------
  // What changes to the store do to lookups

  /** Two stores that differ only in one entry answer alike wherever the entry does not apply. */
  lemma {:induction false} ChangesAreLocal(store: Store, store': Store, key: Key, url: Service,
                                           username: Option<string>, r: Option<Credentials>)
    requires store - {key} == store' - {key} && !Covers(key, url, NewUsername(username))
    ensures IsLookup(store, url, username, r) <==> IsLookup(store', url, username, r)
  {
    AnswersAlike(store, store', key, url, username, r);
    AnswersAlike(store', store, key, url, username, r);
  }

  lemma {:induction false} AnswersAlike(store: Store, store': Store, key: Key, url: Service, username: Option<string>,
                                        r: Option<Credentials>)
    requires store - {key} == store' - {key} && !Covers(key, url, NewUsername(username))
    ensures IsLookup(store, url, username, r) ==> IsLookup(store', url, username, r)
  {
    assert forall k :: k != key && k in store ==> k in store - {key};
    forall k | k != key ensures k in store <==> k in store' {
      assert k in store - {key} <==> k in store' - {key};
    }
    if r.Some? && IsLookup(store, url, username, r) {
      var k :| IsMostSpecific(store, k, url, username) && store[k] == r.value;
      assert (store - {key})[k] == (store' - {key})[k];
      assert IsMostSpecific(store', k, url, username);
    }
  }

  /**
   * After an insertion, a lookup that the new entry covers succeeds, with the new credentials or
   * with those of another entry that is at least as specific.
   */
  lemma {:induction false} InsertedIsFound(store: Store, service: Service, c: Credentials, url: Service,
                                           username: Option<string>, r: Option<Credentials>)
    requires Consistent(store) && Covers(Key(service, UsernameOf(c)), url, username)
    requires IsLookup(store[Key(service, UsernameOf(c)) := c], url, username, r)
    ensures r.Some? && (r.value == c || exists k :: k in store && Covers(k, url, NewUsername(username))
                                           && store[k] == r.value && |k.service.path| >= |service.path|)
  {
    var key := Key(service, UsernameOf(c));
    assert key in store[key := c];
    var k :| IsMostSpecific(store[key := c], k, url, username) && store[key := c][k] == r.value;
  }

  // ---------------------------------------------------------------------------------------------
  // The wire form

  datatype Scheme = BasicScheme | BearerScheme

  datatype Wire = Wire(service: Service, username: Option<string>, scheme: Scheme,
                       password: Option<string>, token: Option<string>)

  datatype FromWireResult =
    | Entry(service: Service, credentials: Credentials)
    | MissingUsername | UnexpectedToken | UnexpectedUsername | UnexpectedPassword | MissingToken

  /** `None` stands for the panic on a token that is not UTF-8. */
  ghost function ToWire(service: Service, c: Credentials): Option<Wire> {
    match c
    case Basic(username, password) => Some(Wire(service, username, BasicScheme, password, None))
    case Bearer(token) =>
      if IsUtf8(token) then Some(Wire(service, None, BearerScheme, None, Some(Utf8.Decode(token)))) else None
  }

  function FromWire(w: Wire): FromWireResult {
    match w.scheme
    case BasicScheme =>
      if w.username.None? then MissingUsername
      else if w.token.Some? then UnexpectedToken
      else Entry(w.service, Basic(w.username, w.password))
    case BearerScheme =>
      if w.username.Some? then UnexpectedUsername
      else if w.password.Some? then UnexpectedPassword
      else if w.token.None? then MissingToken
      else Entry(w.service, Bearer(Utf8.Encode(w.token.value)))
  }

  /** The entries that are accepted, and what they stand for; nothing else is. */
  lemma {:induction false} WireIsAccepted(w: Wire, service: Service, c: Credentials)
    ensures FromWire(w) == Entry(service, c) <==>
      && w.service == service
      && (match c
          case Basic(username, password) =>
            && w.scheme == BasicScheme && username.Some? && w.username == username
            && w.password == password && w.token.None?
          case Bearer(token) =>
            && w.scheme == BearerScheme && w.username.None? && w.password.None?
            && w.token.Some? && Utf8.Encode(w.token.value) == token)
  {
  }

  /** The credentials that survive being written and read back. */
  ghost predicate IsSavable(c: Credentials) {
    match c
    case Basic(username, _) => username.Some?
    case Bearer(token) => IsUtf8(token)
  }

  lemma {:induction false} WireRoundTrip(service: Service, c: Credentials)
    ensures (ToWire(service, c).Some? && FromWire(ToWire(service, c).value) == Entry(service, c)) <==> IsSavable(c)
  {
  }

  /** The entries of a file in order; `None` if one of them cannot be written. */
  ghost function Written(store: Store, order: seq<Key>): Option<seq<Wire>>
    requires forall k :: k in order ==> k in store
  {
    if order == [] then Some([]) else
      var n := |order| - 1;
      var before, last := Written(store, order[..n]), ToWire(order[n].service, store[order[n]]);
      if before.Some? && last.Some? then Some(before.value + [last.value]) else None
  }

  /** The store read from the entries of a file; `None` if one of them is malformed. */
  function Loaded(wires: seq<Wire>): Option<Store> {
    if wires == [] then Some(map[]) else
      var n := |wires| - 1;
      var before, last := Loaded(wires[..n]), FromWire(wires[n]);
      if before.Some? && last.Entry?
        then Some(before.value[Key(last.service, UsernameOf(last.credentials)) := last.credentials])
        else None
  }

  ghost function Restrict(store: Store, order: seq<Key>): Store {
    map k | k in store && k in order :: store[k]
  }

  lemma {:induction false} LoadedSnoc(wires: seq<Wire>, w: Wire)
    ensures var last := FromWire(w);
      Loaded(wires + [w]) ==
        if Loaded(wires).Some? && last.Entry?
        then Some(Loaded(wires).value[Key(last.service, UsernameOf(last.credentials)) := last.credentials])
        else None
  {
    assert (wires + [w])[..|wires|] == wires;
  }

  lemma {:induction false} LoadWritten(store: Store, order: seq<Key>)
    requires Consistent(store) && forall k :: k in order ==> k in store
    ensures (Written(store, order).Some? && Loaded(Written(store, order).value).Some?)
       <==> (forall k :: k in order ==> IsSavable(store[k]))
    ensures Written(store, order).Some? && Loaded(Written(store, order).value).Some? ==>
              Loaded(Written(store, order).value) == Some(Restrict(store, order))
    decreases |order|
  {
    if order != [] {
      var n := |order| - 1;
      assert order == order[..n] + [order[n]];
      LoadWritten(store, order[..n]);
      LoadOneMore(store, order[..n], order[n], order);
    }
  }

  ghost predicate LoadsBack(store: Store, order: seq<Key>)
    requires forall k :: k in order ==> k in store
  {
    Written(store, order).Some? && Loaded(Written(store, order).value).Some?
  }

  lemma {:induction false} LoadOneMore(store: Store, before: seq<Key>, k: Key, order: seq<Key>)
    requires Consistent(store) && order == before + [k] && forall j :: j in order ==> j in store
    requires LoadsBack(store, before) <==> forall j :: j in before ==> IsSavable(store[j])
    requires LoadsBack(store, before) ==> Loaded(Written(store, before).value) == Some(Restrict(store, before))
    ensures LoadsBack(store, order) <==> forall j :: j in order ==> IsSavable(store[j])
    ensures LoadsBack(store, order) ==> Loaded(Written(store, order).value) == Some(Restrict(store, order))
  {
    WireRoundTrip(k.service, store[k]);
    assert order[..|order| - 1] == before && order[|order| - 1] == k;
    var wire := ToWire(k.service, store[k]);
    if Written(store, before).Some? && wire.Some? {
      LoadedSnoc(Written(store, before).value, wire.value);
      assert FromWire(wire.value).Entry? <==> IsSavable(store[k]);
    }
    assert Restrict(store, order) == Restrict(store, before)[k := store[k]];
  }

  /**
   * Writing a store and reading it back restores it, whatever the order of the entries, exactly
   * when every Basic entry has a username and every token is UTF-8.
   */
  lemma {:induction false} SaveAndLoad(store: Store, order: seq<Key>)
    requires Consistent(store) && forall k :: k in order <==> k in store
    ensures (Written(store, order).Some? && Loaded(Written(store, order).value) == Some(store))
       <==> (forall k :: k in store ==> IsSavable(store[k]))
  {
    LoadWritten(store, order);
    assert Restrict(store, order) == store;
  }
}

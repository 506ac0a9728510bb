/**
 * The search for credentials in crates/uv-auth/src/middleware.rs: the netrc file, then the text
 * store, then the native keyring, then the keyring command. Whatever they contain, a search for a
 * username only finds credentials of that user, which is what the protocol relies on.
 */
module AuthSearch {
  import opened Wrappers
  import opened Credentials
  import opened TextStore
  import CredentialsCache
  import AuthProtocol

  datatype Login = Login(login: string, password: string)

  /** `Credentials::from_netrc`: the entry for the host or the default one, if it is for the username. */
  function FromNetrc(hosts: map<string, Login>, host: Option<string>, username: Option<string>): Option<Credentials> {
    if host.None? then None else
      var name := if host.value in hosts then host.value else "default";
      if name !in hosts || (username.Some? && username.value != hosts[name].login) then None
      else Some(Basic(NewUsername(Some(hosts[name].login)), Some(hosts[name].password)))
  }

  /** A keyring asked for a username answers with a password; asked without, with both. */
  function FromKeyring(username: Option<string>, reply: Option<Login>): Option<Credentials> {
    if reply.None? then None
    else
      var name := if username.Some? then username else Some(reply.value.login);
      Some(Basic(NewUsername(name), Some(reply.value.password)))
  }

  /** The native keyring needs a username; the command is also asked without one for an index with policy `Always`. */
  predicate AsksKeyring(username: Option<string>, isAlways: bool, hasIndex: bool) {
    username.Some? || (isAlways && hasIndex)
  }

  /** The replies that the keyrings would give, and whether each is enabled. */
  datatype Keyrings = Keyrings(hasNative: bool, native: Option<Login>, hasCommand: bool, command: Option<Login>)

  /** The netrc entry for a host, or else the default one. */
  predicate HasEntry(netrc: Option<map<string, Login>>, host: Option<string>) {
    netrc.Some? && host.Some? && (host.value in netrc.value || "default" in netrc.value)
  }

  function LoginFor(netrc: Option<map<string, Login>>, host: Option<string>): Login
    requires HasEntry(netrc, host)
  {
    if host.value in netrc.value then netrc.value[host.value] else netrc.value["default"]
  }

  /** There is such an entry, and it is for the username if one is given. */
  predicate HasLogin(netrc: Option<map<string, Login>>, host: Option<string>, username: Option<string>) {
    HasEntry(netrc, host) && (username.Some? ==> LoginFor(netrc, host).login == username.value)
  }

  ghost predicate IsCovered(store: Store, url: Service, username: Option<string>) {
    exists k :: k in store && Covers(k, url, username)
  }

  /**
   * The native keyring is asked first, if there is a username; then the command, if there is one or
   * an index with policy `Always`. The password is the one of the reply, and so is the name of the
   * user unless one was asked for.
   */
  function FirstReply(keyrings: Keyrings, username: Option<string>, isAlways: bool, hasIndex: bool)
    : Option<Credentials>
  {
    match username
    case Some(_) =>
      if keyrings.hasNative && keyrings.native.Some? then Some(Basic(username, Some(keyrings.native.value.password)))
      else if keyrings.hasCommand && keyrings.command.Some?
      then Some(Basic(username, Some(keyrings.command.value.password)))
      else None
    case None =>
      if keyrings.hasCommand && isAlways && hasIndex && keyrings.command.Some?
      then
        var reply := keyrings.command.value;
        Some(Basic(if reply.login == "" then None else Some(reply.login), Some(reply.password)))
      else None
  }

  /** The netrc entry if it fits, or else the most specific entry of the text store, or else the reply. */
  ghost predicate IsFound(netrc: Option<map<string, Login>>, store: Store, reply: Option<Credentials>, url: Service,
                          username: Option<string>, found: Option<Credentials>) {
    if HasLogin(netrc, url.realm.host, username) then
      var login := LoginFor(netrc, url.realm.host);
      found == Some(Basic(if login.login == "" then None else Some(login.login), Some(login.password)))
    else if IsCovered(store, url, username) then found.Some? && IsLookup(store, url, username, found)
    else found == reply
  }

  method SearchStores(netrc: Option<map<string, Login>>, store: TextCredentialStore, order: seq<Key>,
                      keyrings: Keyrings, url: Service, username: Option<string>, isAlways: bool, hasIndex: bool)
    returns (found: Option<Credentials>)
    requires store.Valid() && forall k :: k in order <==> k in store.credentials
    requires username != Some("")
    ensures found.Some? && username.Some? ==> UsernameOf(found.value) == username
    ensures IsFound(netrc, store.credentials, FirstReply(keyrings, username, isAlways, hasIndex), url, username, found)
  {
    if netrc.Some? {
      found := FromNetrc(netrc.value, url.realm.host, username);
      if found.Some? {
        return;
      }
    }
    found := store.GetCredentials(url, username, order);
    if found.Some? {
      return;
    }
    if keyrings.hasNative && username.Some? {
      found := FromKeyring(username, keyrings.native);
      if found.Some? {
        return;
      }
    }
    if keyrings.hasCommand && AsksKeyring(username, isAlways, hasIndex) {
      found := FromKeyring(username, keyrings.command);
    }
  }

  /** The search that a task makes for its username: its outcome is one that the protocol counts on. */
  method SearchFor(t: AuthProtocol.Task, netrc: Option<map<string, Login>>, store: TextCredentialStore, order: seq<Key>,
                   keyrings: Keyrings, url: Service, isAlways: bool, hasIndex: bool)
    returns (o: AuthProtocol.Outcome)
    requires store.Valid() && forall k :: k in order <==> k in store.credentials
    requires t.pc.SearchStores? && AuthProtocol.UsernameFor(t) != Some("")
    ensures AuthProtocol.Allowed(t, o)
    ensures o.found.Some? ==> o.found.value.Plain?
    ensures var username := AuthProtocol.UsernameFor(t);
      var found := if o.found.Some? then Some(o.found.value.credentials) else None;
      IsFound(netrc, store.credentials, FirstReply(keyrings, username, isAlways, hasIndex), url, username, found)
  {
    var found := SearchStores(netrc, store, order, keyrings, url, AuthProtocol.UsernameFor(t), isAlways, hasIndex);
    o := AuthProtocol.Outcome(None, if found.Some? then Some(CredentialsCache.Plain(found.value)) else None);
  }
}

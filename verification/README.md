# Models of uv's caching, authentication and build selection

This project models the parts of uv whose correctness is hardest to see from the code, and proves
what they are for. `dafny verify dfyconfig.toml` checks all of it.

* **Glob clustering** (`GlobTrie`, `GlobClustering`, `CacheInfo`). The globs of `cache-keys` are split,
  gathered in a trie and regrouped, so that each directory is walked once. Proved: no glob is lost,
  duplicated or changed, the groups never share a directory, every base is the longest common prefix
  of its group, and the files and the timestamp found are those of one walk per glob.
* **Credentials** (`Realm`, `UrlTrie`, `Credentials`, `Base64Groups`, `CredentialsCache`, `TextStore`). The
  arena trie refines a map with shortest-prefix lookup; the realm text, the `Authorization` header and the
  TOML entries round-trip exactly when stated conditions hold; Base64 agrees with its definition by groups.
* **The authentication protocol** (`AuthProtocol`, `AuthRuns`, `AuthSends`, `AuthFetches`, `AuthOrigins`,
  `AuthUsers`, `AuthHistory`, `AuthAlways`, `AuthReuse`, `AuthLookups`, `AuthResults`, `AuthWrites`,
  `AuthSteps`, `AuthSearch`). Any number of requests and store calls run concurrently over one cache, one map
  of running fetches and one token mutex. Each access to something shared is one step, and an insertion into
  the cache is three. All theorems are about every state of every run; where one says that something can go
  wrong, a run shows it. What a request sends is tied to what the maps of the cache hold in the very steps
  in which it looks, what a search answers to what the outside answered it, and what the cache holds to what
  tasks put forward with success.
* **The cache on disk** (`FileSystem`, `Removal`, `CacheLayout`, `CacheEntries`, `CacheStages`,
  `CacheCollector`, `CacheWriters`). Every change to the file system is one step that may fail, and the object
  records each state it passes through and whether a step failed. A claim about all recorded states is a
  claim about a crash at any moment, and every operation states exactly when it succeeds
  (`FileSystem.SucceedsIf`). What is left afterwards is stated for each node by the names on its path.
* **Build backend** (`BuildBackend`). The wheel walk and the source distribution walk, and exactly when
  a wheel built through a source distribution has the same module files as one built directly.
* **Cache keys** (`Utf8`, `CacheKey`) and **comma-separated requirements** (`Comma`).

`Foundation.dfy` holds an option type and the order on strings.

Where the code does something other than its comments suggest, the model follows the code:

* `UrlTrie::get` returns the value of the shortest inserted prefix of a URL, not the longest, so a new
  entry may be hidden (`CredentialsCache.EntryIsHidden`); `CredentialsCache.InsertedIsFound` says exactly when.
* A token or signer cached without a username is overwritten by a mere username
  (`CredentialsCache.WhenEntriesAreLost`, `CredentialsCache.TokenIsOverwritten`), and in the trie even a
  password is (`AuthReuse.WhenUncovered`, `AuthReuse.UrlEntryIsLost`).
* The search for archive links skips every name `src`, so `prune` takes the archive away from the
  wheels of a package of that name (`CacheCollector.PruneCanBreakLinks`, `CacheCollector.PruneSrcPackage`); `CacheCollector.PruneSafety`
  says exactly when pruning is safe without assuming where links lie.
* `clear` without a held lock reports one file too many (`CacheCollector.Clear`).
* `rm_rf` gives up on an unreadable directory that has its search bit set (`Removal.Removal.RmRf`).
* The wheel walk prunes by the full path but checks entries by their path in the tree. So an anchored
  exclude of a directory leaves its contents in a directly built wheel
  (`BuildBackend.AnchoredExcludeDiffers`), and an exclude that also matches names above the tree takes
  modules away depending on where the tree lies (`BuildBackend.PlaceMatters`);
  `BuildBackend.ThroughSourceDist` gives the exact condition.
* Under the policy `Always`, a request may be sent with a mere username, after a search found nothing
  (`AuthAlways.AlwaysSendsUsername`) or because it came with an empty header
  (`AuthAlways.EmptyHeaderSendsUsername`), exactly as `AuthAlways.WhenAlwaysSendsUsername` says. A token is
  refused because it has no password, be it found by a search or the request's own
  (`AuthAlways.AlwaysRefusesToken`, `AuthAlways.AlwaysRefusesOwnToken`, `AuthAlways.WhenAlwaysRefuses`).

Assumptions that the theorems name explicitly:

* Pattern components without glob characters stand for themselves (`CacheInfo.ReadsLiterally`). The rules of
  the glob walker are not part of the repository. A walker that matches a pattern without a slash at any
  depth, as gitignore-style globs do, would not satisfy this, and clustering would change what it finds.
* Archive identifiers are fresh (`CacheWriters.AreFresh`).
* Whenever archives are collected, all links lie where the search looks (`CacheWriters.AreFindable`).
* Indexes lie in the realm of the URLs they cover (`AuthOrigins.IndexesAreLocal`).
* `match_directory` never misses a match (`BuildBackend.NeverMisses`).

## Model

| member | source | states |
|---|---|---|
| GlobTrie.SplitGlob | crates/uv-cache-info/src/glob.rs:30-63 | base and pattern rebuild the glob without a non-final `.`; the base is literal, with none of the six glob characters; the pattern starts at the first glob or is a lone file name |
| GlobTrie.SplitIsUnique | crates/uv-cache-info/src/glob.rs:30-63 | only one split has these properties |
| GlobTrie.InsertAddsOneEntry | crates/uv-cache-info/src/glob.rs:72-83 | inserting adds exactly one entry to the multiset of base and pattern pairs of the trie |
| GlobTrie.InsertKeepsSorted | crates/uv-cache-info/src/glob.rs:72-83 | the children of every node stay strictly ascending |
| GlobTrie.InsertKeepsRooted | crates/uv-cache-info/src/glob.rs:72-83 | a root component occurs only at the top of the trie |
| GlobClustering.CollectPatterns | crates/uv-cache-info/src/glob.rs:85-111 | appends the patterns gathered at a node and below, and the groups that start below it |
| GlobClustering.CollectGroups | crates/uv-cache-info/src/glob.rs:113-131 | appends exactly the clusters of the trie |
| GlobClustering.ClustersConserve | crates/uv-cache-info/src/glob.rs:85-131 | the members of all clusters are the entries of the trie, as multisets |
| GlobClustering.ClustersShape | crates/uv-cache-info/src/glob.rs:85-131 | each cluster has its base among its members, all below it in ordinary directories, and clusters are separate |
| GlobClustering.ClusterGlobs | crates/uv-cache-info/src/glob.rs:133-161 | the groups are a clustering of the split globs, and the multiset of base and pattern rebuilds the input |
| GlobClustering.NoDirectoryIsWalkedTwice | crates/uv-cache-info/src/glob.rs:113-133 | no directory is reached from two bases through ordinary directories |
| GlobClustering.BaseIsLongestCommonPrefix | crates/uv-cache-info/src/glob.rs:113-133 | each base is literal and the longest common prefix of its members' bases |
| CacheInfo.LatestTimestamp | crates/uv-cache-info/src/cache_info.rs:222-285 | the running maximum is the latest timestamp of all entries visited, or absent if there is none |
| CacheInfo.ClusteredWalksFindTheSame | crates/uv-cache-info/src/cache_info.rs:222-285 | clustered walks visit the same entries as one walk per glob |
| CacheInfo.LatestIsClusteringIndependent | crates/uv-cache-info/src/cache_info.rs:222-285 | both give the same latest timestamp |
| Utf8.CodePointOf | crates/uv-cache-key/src/cache_key.rs:187-199 | the bytes of a character are the shortest form of its code point in the table of section 3 of RFC 3629 |
| Utf8.TerminatedInjective | crates/uv-cache-key/src/cache_key.rs:187-199 | strings ended by 0xFF are uniquely decodable, since UTF-8 never contains it (section 4 of RFC 3629) |
| CacheKey.StreamPrefixFree | crates/uv-cache-key/src/cache_key.rs:28-294 | for values of one type, equal streams with any tails come from equal values and equal tails |
| CacheKey.AscendingIsCanonical | crates/uv-cache-key/src/cache_key.rs:267-285 | an ordered set is written in one way only |
| CacheKey.SetStreamsAgree | crates/uv-cache-key/src/cache_key.rs:267-274 | sets have equal streams exactly when they have equal elements |
| CacheKey.LittleEndianDigits | crates/uv-cache-key/src/cache_key.rs:42-123 | an unsigned number that fits is written by its digits to the base 256, the least significant first |
| CacheKey.StreamExamples | crates/uv-cache-key/src/cache_key.rs:28-243 | the bytes of one value of each kind of type |
| CacheKey.Feed | crates/uv-cache-key/src/cache_key.rs:28-294 | feeding a value appends exactly its stream to the hasher |
| CacheKey.FeedStr | crates/uv-cache-key/src/cache_key.rs:187-199 | a string appends its bytes and 0xFF |
| CacheKey.FeedOption | crates/uv-cache-key/src/cache_key.rs:222-233 | an option appends its tag and its value |
| CacheKey.FeedSlice | crates/uv-cache-key/src/cache_key.rs:235-243 | a slice appends its length and its elements |
| CacheKey.FeedParts | crates/uv-cache-key/src/cache_key.rs:149-185 | a tuple appends its parts in order |
| Realm.TextIdentifiesRealm | crates/uv-auth/src/realm.rs:39-67 | well-formed realms print alike exactly if they are equal, up to an absent against an empty host |
| Realm.RealmsOfUrls | crates/uv-auth/src/realm.rs:23-67 | two URLs share a realm exactly if scheme, host and port agree; the text of two realms |
| UrlTrie.ComponentsKeepOrder | crates/uv-auth/src/cache.rs:199-206 | after the realm come all segments of the URL that are not empty, in order, and nothing else |
| UrlTrie.Index | crates/uv-auth/src/cache.rs:248-252 | binary search finds the child, or where it belongs |
| UrlTrie.Find | crates/uv-auth/src/cache.rs:199-212 | returns the value of the shortest non-empty prefix in the map that the arena holds, or none |
| UrlTrie.Build | crates/uv-auth/src/cache.rs:214-240 | makes the path of a key exist and changes no value |
| UrlTrie.UrlTrie.constructor | crates/uv-auth/src/cache.rs:193-197 | holds the empty map |
| UrlTrie.UrlTrie.Get | crates/uv-auth/src/cache.rs:199-212 | shortest-prefix lookup by the components of a URL |
| UrlTrie.UrlTrie.Insert | crates/uv-auth/src/cache.rs:214-233 | the map held is updated at the components of the URL and nowhere else |
| UrlTrie.OneParent | crates/uv-auth/src/cache.rs:214-240 | every state but the root has exactly one parent, with a smaller index |
| UrlTrie.PrefixClosed | crates/uv-auth/src/cache.rs:214-240 | the paths of the arena are closed under prefixes |
| UrlTrie.GrowKeepsArena | crates/uv-auth/src/cache.rs:222-240 | adding a child keeps children strictly sorted and the arena well-formed |
| UrlTrie.StateCount | crates/uv-auth/src/cache.rs:214-240 | there is one state more than distinct non-empty prefixes of keys |
| UrlTrie.ShortestPrefixIsUnique | crates/uv-auth/src/cache.rs:199-212 | the specification of a lookup has one solution |
| UrlTrie.LookupStaysInRealm | crates/uv-auth/src/cache.rs:199-233 | what is found for a URL was inserted in its realm |
| Base64.DecodeEncode | crates/uv-auth/src/credentials.rs:291-357 | decoding inverts encoding (section 4 of RFC 4648) |
| Base64.DecodeIsCanonical | crates/uv-auth/src/credentials.rs:291-329 | nothing but an encoding is decoded |
| Base64Groups.EncodeIsGrouped | crates/uv-auth/src/credentials.rs:333-357 | encoding all bits at once is the encoding by groups of three bytes of section 4 of RFC 4648 |
| Credentials.SchemeNames | crates/uv-auth/src/credentials.rs:291-357 | the texts before the encoded credentials and before a token |
| Credentials.WhatIsRead | crates/uv-auth/src/credentials.rs:291-329 | exactly which headers are read as credentials, which are not recognised, and so which panic |
| Credentials.BasicRoundTrip | crates/uv-auth/src/credentials.rs:291-357 | a Basic header decodes to its credentials exactly if the username has no colon and the password is not empty |
| Credentials.HeaderRoundTrip | crates/uv-auth/src/credentials.rs:291-357 | the same for Bearer tokens, exactly if the token is a legal header value |
| CredentialsCache.ShortestIsShortest | crates/uv-auth/src/cache.rs:100-116 | the recursive lookup used by the protocol is shortest-prefix lookup |
| CredentialsCache.AtUrlIsPrefix | crates/uv-auth/src/cache.rs:100-116 | what is found for a URL was inserted for a prefix of its components |
| CredentialsCache.InsertedIsFound | crates/uv-auth/src/cache.rs:100-140 | a new entry is found for every URL below it exactly if no entry is above it, or the shortest one holds the same |
| CredentialsCache.WhatInsertionChanges | crates/uv-auth/src/cache.rs:100-140 | exactly what an insertion changes in any lookup |
| CredentialsCache.EntryIsHidden | crates/uv-auth/src/cache.rs:199-212 | an entry for a path that is hidden by one for its host |
| CredentialsCache.WritesKeepFiled | crates/uv-auth/src/cache.rs:119-169 | entries stay filed under the username they hold |
| CredentialsCache.WritesKeepPasswords | crates/uv-auth/src/cache.rs:143-169 | entries of named users never lose their password |
| CredentialsCache.WritesStore | crates/uv-auth/src/cache.rs:119-169 | each of the two realm writes of an insertion stores credentials that authenticate at its own key and nowhere else |
| CredentialsCache.EmptyIff | crates/uv-auth/src/credentials.rs:181-200 | credentials are empty exactly if they neither authenticate nor name a user, and a password authenticates |
| CredentialsCache.WhenEntriesAreLost | crates/uv-auth/src/cache.rs:143-169 | exactly when any entry stops authenticating, and exactly when it loses a password |
| CredentialsCache.TokenIsOverwritten | crates/uv-auth/src/cache.rs:155-166 | a concrete token lost to a mere username |
| CredentialsCache.CredentialsCache.GetRealm | crates/uv-auth/src/cache.rs:62-93 | exactly the entry at realm and username is found; for a username it must have a password; nothing is found only if there is none |
| CredentialsCache.CredentialsCache.GetUrl | crates/uv-auth/src/cache.rs:100-116 | what is found is at the shortest prefix and, for a username, has that username and a password; nothing is found only if the entry there is absent or of no use for the username |
| CredentialsCache.CredentialsCache.InsertRealm | crates/uv-auth/src/cache.rs:143-169 | credentials that authenticate are stored at the key, a mere username only where it costs no password, empty ones never; every other entry is unchanged; the replaced entry is returned |
| CredentialsCache.CredentialsCache.Insert | crates/uv-auth/src/cache.rs:119-138 | credentials that authenticate are then found for their realm without a username and with their own; all entries of other users and realms are unchanged; the trie has them at the URL; empty credentials change nothing |
| TextStore.ChangesAreLocal | crates/uv-auth/src/store.rs:312-383 | changing one entry changes no lookup that the entry does not cover |
| TextStore.InsertedIsFound | crates/uv-auth/src/store.rs:312-376 | a lookup that a new entry covers finds it, or another one at least as specific |
| TextStore.TextCredentialStore.GetCredentials | crates/uv-auth/src/store.rs:312-367 | for every iteration order, an entry in the realm, at a prefix of the path, for the username given, of maximal path length; none only if no entry covers the URL |
| TextStore.Best | crates/uv-auth/src/store.rs:331-367 | the loop's covering key with the longest path |
| TextStore.WireRoundTrip | crates/uv-auth/src/store.rs:129-201 | an entry survives its wire form exactly if a Basic entry has a username and a token is UTF-8 |
| TextStore.WireIsAccepted | crates/uv-auth/src/store.rs:150-201 | exactly which entries of a file are accepted, and as which credentials |
| TextStore.LoadWritten | crates/uv-auth/src/store.rs:245-309 | what is read back are the entries written, exactly if all of them can be saved |
| TextStore.SaveAndLoad | crates/uv-auth/src/store.rs:245-309 | a store is restored exactly under that condition, in any order |
| AuthSearch.SearchStores | crates/uv-auth/src/middleware.rs:714-799 | a netrc entry for the host or the default one, if it fits the username, with its login and password; else the most specific entry of the text store; else the reply of the native keyring, then of the command, with the password replied and the username asked for; a search for a username finds only that user |
| AuthSearch.SearchFor | crates/uv-auth/src/middleware.rs:714-799 | the search that a task makes for its username has that result, and an outcome that the step system allows |
| AuthRuns.HoldsInRun | crates/uv-auth/src/middleware.rs:289-805 | an invariant kept by each task for itself and for the others holds in every state of every run |
| AuthRuns.JobsAreFixed | crates/uv-auth/src/middleware.rs:289-489 | no step changes what a task is about |
| AuthSends.EveryTaskSendsWell | crates/uv-auth/src/middleware.rs:289-527 | at most two sends, the second authenticated and only after 401, 403 or 404; where authentication is required, as spelled out from the configuration, at most one, with a header; under `Never` exactly one, unchanged; the status returned is that of the last send |
| AuthSends.NoCacheWrite | crates/uv-auth/src/middleware.rs:308-420 | in every run, no step of a request under `Never` writes cache, fetch map or token |
| AuthFetches.FetchesInRun | crates/uv-auth/src/middleware.rs:633-805 | a slot is marked running by a task exactly while that task fetches it, and the mutex is held exactly in its critical section |
| AuthFetches.SearchedOnce | crates/uv-auth/src/middleware.rs:626-805 | no key is searched twice and the token store is called at most once |
| AuthFetches.SearchesOnceForAll | crates/uv-auth/src/middleware.rs:626-652 | of two tasks that search, at any times, no two ask for the same user and index or realm |
| AuthFetches.ResultsStay | crates/uv-once-map/src/lib.rs:42-58 | a published result is never replaced |
| AuthFetches.AnswersWereSearched | crates/uv-auth/src/middleware.rs:626-805 | every answer is the published result of a search, made for a URL of the same index, or of the same realm where there is no index |
| AuthFetches.OneAnswerForAll | crates/uv-auth/src/middleware.rs:626-652 | all who ask for the same user and index, or realm without an index, at any times, get the same answer |
| AuthFetches.WaiterHasFetcher | crates/uv-auth/src/middleware.rs:633-805 | a blocked waiter's key is being fetched by a task that can progress, itself or through the holder of the token mutex |
| AuthFetches.NoDeadlock | crates/uv-auth/src/middleware.rs:616-805 | while any task has not ended, some task can take a step |
| AuthFetches.EveryRunFinishes | crates/uv-auth/src/middleware.rs:289-805 | a run has at most twenty steps per task, and where it cannot go on all tasks have ended and all fetches have results |
| AuthResults.AnswersAreResults | crates/uv-auth/src/middleware.rs:654-712 | every answer is what the provider gives for the URL searched for, or else the one token if the token store knows that URL |
| AuthResults.OutcomeIsAnswer | crates/uv-auth/src/middleware.rs:714-805 | what a search in the stores finds is the answer of everyone who shares the fetch, and no one has an answer before |
| AuthResults.TokenStays | crates/uv-auth/src/middleware.rs:675-700 | the token that was read first is the token for ever |
| AuthOrigins.EveryEntryHasAnOrigin | crates/uv-auth/src/middleware.rs:498-611 | every cached credential was stored explicitly or sent on a request in the same realm with a response that is no error |
| AuthOrigins.UrlLookupIsKnown | crates/uv-auth/src/cache.rs:100-116 | what the trie yields for a URL is known in its realm |
| AuthOrigins.CredentialsStayInTheirRealm | crates/uv-auth/src/middleware.rs:289-611 | a request carries only its own credentials, the result of a search made for a URL in its realm, or credentials known in its realm |
| AuthUsers.EntriesAreFiled | crates/uv-auth/src/cache.rs:119-169 | in every run, an entry under a username holds that username |
| AuthUsers.NoOtherUsersPassword | crates/uv-auth/src/middleware.rs:530-805 | a request that came with only a username is sent for that user or with a platform's token or signer |
| AuthUsers.PasswordsStay | crates/uv-auth/src/cache.rs:143-169 | in every run, an entry of a named user with a password keeps one for ever |
| AuthHistory.BareInRun | crates/uv-auth/src/middleware.rs:289-489 | whatever other tasks do, what a request without credentials, or under `Never`, sends follows from what it found at its URL, for its index or realm, and by a search |
| AuthHistory.UserInRun | crates/uv-auth/src/middleware.rs:530-611 | a request whose credentials do not authenticate is sent at most once, with what a search found, else what the cache has, which has a password if it came with a username, else its own, unless that is refused; `AuthLookups.UserKnowsInRun` says what the cache has |
| AuthHistory.OwnInRun | crates/uv-auth/src/middleware.rs:543-550 | a request whose credentials authenticate is sent once as it came, unless it is refused |
| AuthLookups.BareKnowsInRun | crates/uv-auth/src/middleware.rs:323-419 | what a request without credentials knows is what the maps held in the steps of its own lookups: for the URL, then for the index, and if that missed for the realm; each is made once |
| AuthLookups.UserKnowsInRun | crates/uv-auth/src/middleware.rs:555-605 | the same for a request with a username: the index URL and its root, or the realm without an index, then the URL; and after a failed search the realm, exactly if there is an index |
| AuthLookups.NamedHitIsUsed | crates/uv-auth/src/middleware.rs:555-586 | if the entry there has the username and a password in the step of the lookup, it is what the request is sent with, once and without a search |
| AuthLookups.NamedUsesRealm | crates/uv-auth/src/middleware.rs:562-573 | once the realm of a URL without an index has a password for a user, every request that names the user and has not looked yet is sent once, with the entry of the step in which it looks, and never searches |
| AuthLookups.NamedSearchesOnlyAfterMisses | crates/uv-auth/src/middleware.rs:555-589 | a request with a username searches only if each lookup before the search was made and the maps held nothing usable for the username there |
| AuthLookups.NamedFallsBackToRealm | crates/uv-auth/src/middleware.rs:589-605 | after a search that found nothing, a request for an index, and no other, uses what the realm holds when it looks there |
| AuthLookups.BareHitIsUsed | crates/uv-auth/src/middleware.rs:323-433 | what the maps hold for the URL, the index or the realm in the step of the lookup is remembered and, if it authenticates, carried by the last thing sent, without a search |
| AuthAlways.WhenAlwaysSendsUsername | crates/uv-auth/src/middleware.rs:289-611 | for every request under `Always`: it is sent with credentials that do not authenticate exactly if it came with ones that do not and the cache had only a username; or came without, and was left with a username after lookups and search; or was attempted, unenforced, with a username |
| AuthAlways.NamedRequestsAuthenticate | crates/uv-auth/src/middleware.rs:530-611 | under `Always`, a request that came with a username is sent with credentials that authenticate, or not at all |
| AuthAlways.WhenAlwaysRefuses | crates/uv-auth/src/middleware.rs:498-513 | under `Always`, the credentials that are new to the cache, a request's own or what its search led to, are refused exactly if they have no password, and sent otherwise |
| AuthAlways.AlwaysSendsUsername | crates/uv-auth/src/middleware.rs:461-468 | a run in which a mere username is sent under `Always` |
| AuthAlways.AlwaysRefusesToken | crates/uv-auth/src/middleware.rs:511-513 | a run in which a token that a search finds, which authenticates, is refused |
| AuthAlways.AlwaysRefusesOwnToken | crates/uv-auth/src/middleware.rs:511-513 | a run in which a request's own token is refused |
| AuthAlways.EmptyHeaderSendsUsername | crates/uv-auth/src/middleware.rs:555-573 | a run in which a request with an empty header is sent with a mere username under `Always` |
| AuthReuse.WhenUncovered | crates/uv-auth/src/cache.rs:119-138 | a URL stops being authenticated by the trie by exactly one kind of step: a mere username written at or above it with no entry further up |
| AuthReuse.UrlEntryIsLost | crates/uv-auth/src/cache.rs:135-138 | a run in which that happens |
| AuthReuse.StaysCovered | crates/uv-auth/src/cache.rs:119-138 | in every run, a URL stays authenticated exactly as long as no such step is taken |
| AuthReuse.CoveredIsUsed | crates/uv-auth/src/middleware.rs:323-340 | until then, every request for it that has not looked yet is sent once, with cached credentials that authenticate, and never searches |
| AuthReuse.AcceptedIsReused | crates/uv-auth/src/middleware.rs:323-340 | so for every request below an entry from its insertion on, whatever runs in between, with credentials known in the realm |
| AuthReuse.SearchesOnlyAfterMisses | crates/uv-auth/src/middleware.rs:405-447 | a request searches only after both lookups found nothing that authenticates and any first attempt was refused |
| AuthReuse.WhenNothingIsTried | crates/uv-auth/src/middleware.rs:366-473 | a request that need not be authenticated ends without having tried credentials exactly if none were found, what was found is refused, or the request was not refused |
| AuthWrites.StepStores | crates/uv-auth/src/cache.rs:119-169 | in every run, the step that writes credentials which authenticate leaves exactly these at its key of the realm map |
| AuthWrites.AcceptedIsStored | crates/uv-auth/src/middleware.rs:498-527 | a task that ends with success has written the credentials it put forward, its own or those of its search, for their user, for the realm and for the URL |
| AuthWrites.WritesAreMeant | crates/uv-auth/src/middleware.rs:498-527 | nothing else ever changes the cache |
| AuthWrites.AcceptedIsUsedByName | crates/uv-auth/src/middleware.rs:498-573 | a password accepted once is used by every later request in its realm without an index that names the user, without a search |
| AuthWrites.KnownHasSource | crates/uv-auth/src/middleware.rs:498-527 | what counts as known in a realm was the job of a store there, or on a request there that got a response that is no error |
| Comma.FromStr | crates/uv-cli/src/comma.rs:20-59 | cuts the input at exactly the commas that no open bracket surrounds, wherever one starts to read, and that no version operator follows; returns, in order, the pieces that are not blank without the blanks around them; nothing else is lost |
| Comma.CutIsSeparator | crates/uv-cli/src/comma.rs:25-52 | counting depth with saturation finds exactly the commas that are outside brackets by excess of opening ones |
| Comma.TrimIsTrimmed | crates/uv-cli/src/comma.rs:46-57 | trimming takes away blanks at both ends, and all of them |
| Comma.CleanedAreTrimmed | crates/uv-cli/src/comma.rs:46-57 | the requirements are the trimmed pieces at ascending positions, and all other pieces are blank |
| Comma.JoinPieces | crates/uv-cli/src/comma.rs:20-59 | the pieces joined by commas are the input |
| Comma.PiecesOfJoin | crates/uv-cli/src/comma.rs:20-59 | joining pieces and splitting gives the pieces |
| Comma.JoinThenSplit | crates/uv-cli/src/comma.rs:20-59 | splitting inverts joining on every list of well-formed requirements |
| Removal.Removal.AddRemoval | crates/uv-cache/src/removal.rs:175-183 | adding the counters of a removal counts every node that it removed once more, and none that it left; success exactly as for the removal |
| Removal.Removal.RmRf | crates/uv-cache/src/removal.rs:59-173 | on success exactly the doomed nodes are gone and each file, directory and byte was counted once, across retries; at every step only doomed nodes are missing and only shut directories were opened; it succeeds exactly if no step fails and no directory at or below the path is unreadable with its search bit set |
| Removal.Removal.Walk | crates/uv-cache/src/removal.rs:93-170 | the same for the contents of a directory |
| Removal.Removal.Reopen | crates/uv-cache/src/removal.rs:185-197 | a directory that is neither readable nor searchable is made both and the removal starts over, unless that step fails; one with its search bit set is left alone; a retry strictly lowers the number of shut directories |
| CacheEntries.FindArchiveReferences | crates/uv-cache/src/lib.rs:634-683 | maps exactly the archives that a scanned link resolves to, each to all its links |
| CacheEntries.GoodOnTheWay | crates/uv-cache/src/removal.rs:59-173 | partly removing a subtree that no linked archive reaches into keeps every link safe |
| CacheEntries.UnreferencedIsFree | crates/uv-cache/src/lib.rs:607-626 | an archive without scanned links is needed by no link |
| CacheEntries.Delete | crates/uv-cache/src/lib.rs:503-626 | removes one subtree, counted in the summary; where links are findable and none needs it, every state on the way is safe; it succeeds exactly if no step fails and no directory to be removed stays unreadable |
| CacheCollector.Prune | crates/uv-cache/src/lib.rs:503-626 | for any tree, the state after all stages, node by node (see `CacheStages.StagesAgree`), with every removed node counted once; where all links are findable, every state on the way is safe; it succeeds exactly if no step fails, there is a cache, with a source distribution bucket if that is to be unzipped, and no directory to be removed stays unreadable |
| CacheStages.StagesAgree | crates/uv-cache/src/lib.rs:503-626 | after pruning, a node is left exactly if: its top-level entry is a marker or a directory with the name of a bucket; it is not below `environments-v2`; with `ci`, it is not in a directory of `wheels-v5`, and nothing on its path in `sdists-v9` lies beside a `metadata.msgpack` unless it is that or ends in `.whl`; if in an archive, a findable link left leads there |
| CacheStages.NamesAgree | crates/uv-cache/src/lib.rs:593-655 | a built wheel ends in `.whl` in any case; the search for links passes over `src`, `.lock`, `.gitignore` and five extensions |
| CacheCollector.Tidy | crates/uv-cache/src/lib.rs:506-548 | removes stray top-level entries and all environments |
| CacheCollector.UnzipSdists | crates/uv-cache/src/lib.rs:568-604 | for any order of the walk, removes exactly the entries beside metadata that are neither metadata nor built wheels; fails if the bucket is missing |
| CacheCollector.CollectArchives | crates/uv-cache/src/lib.rs:607-626 | removes exactly the archives that no scanned link resolves to |
| CacheCollector.PruneIsExact | crates/uv-cache/src/lib.rs:503-626 | the archives left are exactly those that a scanned link resolves to |
| CacheCollector.PruneIsIdempotent | crates/uv-cache/src/lib.rs:503-626 | a second run removes nothing |
| CacheCollector.PruneSafety | crates/uv-cache/src/lib.rs:607-655 | pruning keeps all links safe exactly if every remaining link shares its archive with a scanned one |
| CacheCollector.PruneCanBreakLinks | crates/uv-cache/src/lib.rs:640-655 | pruning breaks the link to the wheel of a package named `src` |
| CacheCollector.PruneSrcPackage | crates/uv-cache/src/lib.rs:503-655 | so does the operation itself when run on that cache, which it finishes unless a step fails |
| CacheCollector.Remove | crates/uv-cache/src/lib.rs:481-500 | for any tree, exactly the entries of the package and the archives orphaned by that are gone, node by node (see `CacheStages.RemovalAgrees`), with every removed node counted once; where all links are findable, every state on the way is safe; it succeeds exactly if no step fails and no directory to be removed stays unreadable |
| CacheStages.RemovalAgrees | crates/uv-cache/src/lib.rs:1128-1220 | exactly what is at or below the places of the package in the four buckets is gone, and the archives of which it held all findable links |
| CacheCollector.RemoveOrphans | crates/uv-cache/src/lib.rs:491-497 | removes exactly the archives all of whose former links are gone |
| CacheCollector.RemoveIsExact | crates/uv-cache/src/lib.rs:481-500 | an archive is deleted exactly if it had a scanned link and has none now |
| CacheCollector.Clear | crates/uv-cache/src/lib.rs:448-476 | what is left: nothing, or the directory and a lock that is not held; with a held lock files and directories are counted exactly; without, one file too many is reported; the bytes of the lock file are never counted; it succeeds exactly if no step fails, the cache exists and no directory stays unreadable |
| CacheWriters.Persist | crates/uv-cache/src/lib.rs:349-368 | for any path outside the archives, on success the path links to the complete archive, everything else that was there is unchanged, and every state on the way is safe; it fails only if a step does, or something that is no directory is in the way, or a directory is where the link should be, or the temporary name is taken |
| CacheWriters.CreateLink | crates/uv-cache/src/lib.rs:748-769 | the link is set or replaced, a `dst` that was there is there in every state, and every state on the way is safe; it fails only if a step does, or the parent is no directory, or `dst` is one, or the temporary name is taken; if no step fails nothing else is left behind |
| CacheWriters.CreateDirAll | crates/uv-cache/src/lib.rs:361-365 | adds the missing directories at or above the path and nothing else; it succeeds exactly if no step fails and nothing on the path is anything but a directory |
| CacheWriters.Run | crates/uv-cache/src/lib.rs:349-626 | in every state of every run of persisting, re-linking, removing and pruning, no link points to a missing or incomplete archive, if links that exist when archives are collected lie where the search looks; every operation that is reported as a success had its effect, and one that can succeed does unless a step fails |
| BuildBackend.WheelExcludes | crates/uv-build-backend/src/wheel.rs:106-125 | each once: first `__pycache__`, `*.pyc` and `*.pyo`, unless switched off, and then exactly the excludes for wheels and source distributions |
| BuildBackend.SourceExcludes | crates/uv-build-backend/src/source_dist.rs:162-172 | each once: first `__pycache__`, `*.pyc` and `*.pyo`, unless switched off, and then exactly the excludes for source distributions |
| BuildBackend.Walk | crates/uv-build-backend/src/wheel.rs:151-155 | a filtered walk visits exactly the entries all of whose prefixes are kept |
| BuildBackend.WriteModules | crates/uv-build-backend/src/wheel.rs:127-190 | writes exactly the selected entries of all modules, named below the source root, none of which an exclude matches; fails exactly if the file or directory of a module is missing or a forbidden file exists |
| BuildBackend.PrefixDirectories | crates/uv-build-backend/src/wheel.rs:137-149 | writes each directory above a module once |
| BuildBackend.ModulesAreEntered | crates/uv-globfilter/src/glob_dir_filter.rs:77-120 | the walk is never kept from a module or from anything in it |
| BuildBackend.WriteSourceDist | crates/uv-build-backend/src/source_dist.rs:220-274 | ships exactly the entries all of whose prefixes may match and are not excluded, and the metadata; fails exactly if the file of a module is missing, a forbidden one exists, or an exclude matches `pyproject.toml` |
| BuildBackend.ThroughSourceDist | crates/uv-build-backend/src/source_dist.rs:60-274 | for any excludes and places, the indirect build gives the same module files exactly if the modules survive, and what is selected directly is what is selected at the other place and shipped |
| BuildBackend.ThroughSourceDistAnywhere | crates/uv-build-backend/src/source_dist.rs:60-274 | where the place of the tree does not matter, exactly if the modules survive and nothing selected lies below a source exclude |
| BuildBackend.ThroughSourceDistAlike | crates/uv-build-backend/src/wheel.rs:106-190 | if excludes match both forms of a path alike, exactly if the modules survive |
| BuildBackend.BuildBothWays | crates/uv-build-backend/src/lib.rs:418-470 | the three conditions for the two builds as performed from the settings; under default settings no file that a default exclude matches is in either wheel |
| BuildBackend.AnchoredExcludeDiffers | crates/uv-build-backend/src/wheel.rs:150-182 | a project in which a file below an anchored exclude is in the wheel built directly and not in the one built through the source distribution |
| BuildBackend.PlaceMatters | crates/uv-build-backend/src/wheel.rs:150-182 | a project whose module is missing from the wheel built in a directory of a certain name, and present in the one built elsewhere |

## Left out

- GlobTrie.Insert: the trie is an owned value that is rebuilt along the path, instead of nested maps updated in place; nothing else refers to its nodes, so no aliasing is lost.
- GlobClustering.ClusterGlobs: Unix paths only; Windows prefixes and the separate handling of negated globs are not part of this model.
- CacheInfo.LatestTimestamp: the directory, environment and Git parts of the cache key are omitted; they are independent lookups.
- CacheKey.StreamPrefixFree: the hash function applied to the stream, and the keys of paths, which rest on library internals.
- CanonicalUrl and RepositoryUrl, which depend on the encoding sets of a URL library.
- Credentials.HeaderRoundTrip: percent-decoding of credentials in URLs; request URLs carry none in the model.
- TextStore.SaveAndLoad: TOML syntax and file permissions; the round trip is stated on the entries of the file.
- AuthSearch.SearchStores: what keyrings answer is a parameter; their processes and native calls are foreign code.
- AuthFetches.EveryRunFinishes: tasks are not cancelled; a cancelled fetch would leave its key registered. One middleware over one cache is modelled, so there is one token mutex.
- AuthProtocol: a signer is an abstract header; that signing may rewrite the path and query of the URL is not modelled.
- HTTP transport, token refresh and AWS signing, which are outcomes of steps.
- Removal.Removal.RmRf: counters are unbounded; Windows attributes and junctions are omitted.
- FileSystem: listing a directory outside `rm_rf` always succeeds; steps that change something may fail at any time.
- CacheCollector.Prune: assumes that it excludes other writers, as the lock promises; acquiring the lock is not modelled. The bucket of Python downloads is not among the known buckets, as in the code.
- CacheCollector.Remove: reading the metadata of source distributions is a parameter that says which directories belong to the package.
- CacheWriters.Persist: directories are not created through links to directories; the Windows form of links, a file, is omitted.
- BuildBackend.WriteModules: license and data files, to which no excludes apply, the generated metadata files, the check for virtual environments and the order of entries are omitted.
- BuildBackend.WriteSourceDist: glob syntax and the automaton behind directory matching appear only through what they promise.
- Metadata rendering, licence expressions, entry points, build frontends, binary installation and command-line compatibility.

# Verified model of the SAP Cloud SDK for Python

This project models the parts of the SDK that hold real state machines, caches or algebra, and
proves what they promise. It is written for Dafny 4.11; `dafny verify dfyconfig.toml` checks all of it.

## What is modelled

| file | component |
|---|---|
| `CsrfProtocol.dfy`, `CsrfSafety.dfy` | The CSRF token protocol of the ADM HTTP client. Any number of senders share one token map; each sender is cut into one step for every lock region and every network call, and the steps of different senders interleave freely. Server answers are inputs. History (which fetch produced a token, how often an entry was evicted, what was returned and sent) is recorded beside; that no step looks at it is proved. |
| `OrderedCache.dfy`, `CacheLaws.dfy`, `TokenExpiry.dfy` | The bounded, least-recently-used token and URL caches of the agent gateway client, against a dictionary that never evicts, and the deadlines computed from token responses, up to a cache fed with them. |
| `LobAuth.dfy`, `LobIsolation.dfy` | System and user authentication over the two coupled caches, with calls suspended while they fetch, for caches of every size. |
| `IasFetcher.dfy` | The IAS token fetcher of the ADM client: rotation of the binding, its in-process cache, uncached exchanges. |
| `SecretWatcher.dfy` | The AI Core credential watcher beside a rotator that may run between any two file accesses. |
| `Discovery.dfy` | Concurrent tool discovery under a semaphore, in both flows, against a sequential loop. |
| `Labels.dfy`, `LocalStore.dfy`, `StoreLaws.dfy`, `ProviderLaws.dfy` | The local destination store: label patching, create, update and delete, against partial maps; and subaccount destinations, where a provider's entry may stand beside a subscriber's. |
| `AccessStrategy.dfy` | The two implementations of the access strategies. |
| `Redirects.dfy` | The destination HTTP client's own redirect loop. |
| `Entities.dfy` | Parsing and serialising destinations, fragments and certificates. |
| `TlsFailure.dfy`, `ClientRecovery.dfy` | The CBC client's search for a TLS error in a cause chain, and the replacement of its HTTP client under a lock. |
| `ODataKeys.dfy` | Entity keys in OData URLs. |
| `Options.dfy` | The option type. |

Code that changes things step by step is modelled by classes and loops, and each such method is proved
against a function of the old state; what is promised is then proved about that function over whole runs.
Clocks, network answers, file contents and scheduling are parameters over which every theorem quantifies.

## Where a promise holds only under a condition

The code is modelled as it is. Where a natural reading of its documentation is not quite what it does, the
project proves exactly when it holds:

- A CSRF retry carries the answer of another fetch than the rejected request. It carries another *text*
  exactly if the server did not issue the same text twice; a server that leaves the header out twice makes
  the client repeat the rejected empty token (`CsrfSafety.RetryIsAnotherFetch`, `CsrfSafety.MissingHeaderRepeats`).
- User tokens are kept apart in every interleaving exactly if no two users share the text that is hashed, or
  the caches are too small to mix them up (`LobIsolation.IsolationExactly`). No two share it as soon as no
  JWT, or no tenant, contains the separator (`LobAuth.NoSeparatorSeparates`).
- The credential watcher never rests on stale or torn credentials exactly if the load at start-up is no older
  than the first directory time it reads, or the disk has moved on since, or there was no directory yet. Its
  docstring has the caller load before the watch starts, so a rotation in between goes unnoticed until the
  next one (`SecretWatcher.WatcherCorrectExactly`). A file that cannot be read silently keeps the old value,
  and that is not repaired while the directory's time stays (`SecretWatcher.RestsUpToDateExactly`).
- Updating or patching a subaccount destination in the local store reaches the first entry of that name,
  whoever it belongs to. A provider lookup finds the updated entry exactly if neither that entry nor the update
  has a tenant; and where the entry has one, nothing the provider sees changes (`ProviderLaws.UpdateReachesFirstEntry`, `ProviderLaws.MissesView`).
- Listing subaccount destinations, the local store raises on an entry with missing fields where the cloud
  client skips it. The two give the same list exactly if nothing on view would be skipped, or something ends
  the parsing anyway (`AccessStrategy.DestinationListsAgreeExactly`; an input on which they differ is
  `AccessStrategy.TypelessDestination`). The fragment and certificate clients raise like the local store.
- ADD then DELETE of one label patch is DELETE exactly if the labels that stay have unique keys
  (`Labels.AddThenDeleteExactly`).
- A tenant's entries and the tenant-less ones overlap exactly for the empty tenant name
  (`AccessStrategy.OverlapExactly`).
- Dropping the test for a step down from HTTPS to HTTP would change a redirect decision only for a target
  with a malformed port (`Redirects.DowngradeImplied`).
- After a 303 a request is a GET without JSON body; but `data` and `files` that a caller passes on are sent again
  with it. The requests after a 303 are free of any body against every server exactly if none are passed
  (`Redirects.SendsPlainExactly`, `Redirects.PlainExactly`; a run is `Redirects.DataSentAgain`).
- A token granted before a rotation of the ADM binding can come back exactly if the reload raised while that
  token still had time: the look at the binding has recorded the change already, so it is not seen again, and
  the old token is served until a later reload succeeds (`IasFetcher.NeverOldExactly`, `IasFetcher.OldTokenMeans`).
- Key paths determine their entity, but the client sends them as they are: of a text key with '#' only what is
  before it is sent, and with '?' the path ends there (`ODataKeys.TargetsExactly`, `ODataKeys.WholePathExactly`).
- Entity round trips hold exactly if required fields are not blank and no property uses certain known keys;
  a certificate's empty type is lost. An empty optional field counts as present under its upper-case key and
  as absent under its lower-case key (`Entities.CasingIrrelevantExactly`,
  `Entities.PayloadRoundTripExactly`, `Entities.EntityRoundTripExactly`,
  `Entities.FragmentRoundTripExactly`, `Entities.CertificateRoundTripExactly`).
- The docstring of `_rebuild_http_client` says that a thread that waited for the lock reuses a client rebuilt
  meanwhile. The body has no such check: however many requests fail together, each builds a client
  (`ClientRecovery.HerdRebuilds`), and one rebuild is enough exactly if there is at most one request or the
  client does not rebuild at all (`ClientRecovery.OneRebuildExactly`). For the same reason a request can find
  its client closed under it, which httpx answers with an error that `_request` does not translate: this can happen exactly with two
  requests or more and a client that rebuilds (`ClientRecovery.ClosedExactly`).
- The literal forms of keys are those of section 5.1.1.6.1 of OData Version 4.0 Part 2: URL Conventions; the
  docstrings cite section 5.1.1.6.2.

## Model

| member | source | states |
|---|---|---|
| CsrfProtocol.CsrfTokens.Find | src/sap_cloud_sdk/adms/_http.py:333-336 | the locked lookup returns the cached token of the root, if there is one |
| CsrfProtocol.CsrfTokens.StoreDefault | src/sap_cloud_sdk/adms/_http.py:350-354 | the locked `setdefault`: the first writer wins, every caller gets the stored token |
| CsrfProtocol.CsrfTokens.Evict | src/sap_cloud_sdk/adms/_http.py:300-304 | the entry goes only if it still is the rejected token |
| CsrfProtocol.CsrfTokens.GetToken | src/sap_cloud_sdk/adms/_http.py:321-354 | a cached token is returned without a fetch; otherwise the header that was fetched, or the empty text where there is none, is stored and returned, and a failed fetch leaves the map alone |
| CsrfProtocol.CsrfTokens.SendWithCsrf | src/sap_cloud_sdk/adms/_http.py:278-313 | final map, outcome and the tokens carried are those of the undisturbed send: the first request carries the cached token or else the fetched header, a second one is made exactly after a 403 and carries what the second fetch brought, and the last answer decides the outcome |
| CsrfProtocol.AloneIsTold | src/sap_cloud_sdk/adms/_http.py:278-354 | map, outcome and carried tokens of that send, told from its arguments alone |
| CsrfSafety.LoneSendIsARun | src/sap_cloud_sdk/adms/_http.py:278-354 | that method's map, outcome and carried tokens are what the interleaving protocol's sender produces when it runs alone |
| CsrfSafety.StepInv | src/sap_cloud_sdk/adms/_http.py:287-361 | every step of every sender keeps provenance, histories, separate pending fetches and epoch agreement |
| CsrfSafety.RetryIsAnotherFetch | src/sap_cloud_sdk/adms/_http.py:297-313 | in every interleaving the two requests of a send carry answers of two different fetches for its own root, the first answered 403; same text exactly if the server gave it twice |
| CsrfSafety.RetryNeverRepeatsRejectedToken | src/sap_cloud_sdk/adms/_http.py:300-313 | if the server never issues a token of this root twice, a retry never presents the rejected one |
| CsrfSafety.MissingHeaderRepeats | src/sap_cloud_sdk/adms/_http.py:350-354 | a missing header reads as the empty token, which a retry then presents again |
| CsrfSafety.EvictionForgets | src/sap_cloud_sdk/adms/_http.py:302-304 | the compare-and-evict leaves no entry that came from the rejected fetch |
| CsrfSafety.EvictedNeverReturns | src/sap_cloud_sdk/adms/_http.py:351-354 | once its entry is gone, a stored answer never supplies an entry again, in any continuation |
| CsrfSafety.OneTokenPerEpoch | src/sap_cloud_sdk/adms/_http.py:327-336 | between two evictions of a root's entry all callers observe the same token |
| CsrfSafety.CachedTokensAreTheRoots | src/sap_cloud_sdk/adms/_http.py:333-354 | every cached token was fetched for that service root |
| CsrfSafety.SameRootExactly | src/sap_cloud_sdk/adms/_http.py:332 | two service bases share a token exactly if they are equal, none counting as the empty one |
| CsrfSafety.LogIsTheAnswers | src/sap_cloud_sdk/adms/_http.py:338-350 | over every run, the recorded fetches are exactly the answered ones in order, each with the header of its answer |
| CsrfSafety.RequestsCarryHeaders | src/sap_cloud_sdk/adms/_http.py:327-354 | in every interleaving, whatever a request carries is a header some sender of the same service base was sent in this run, or the empty text where that answer had none |
| CsrfSafety.OnlyRejectionEvicts | src/sap_cloud_sdk/adms/_http.py:300-304 | an entry never changes, and is removed only by a sender whose one request carried that very token and got 403 |
| CsrfSafety.BoundedSend | src/sap_cloud_sdk/adms/_http.py:287-313 | at most two requests and two fetches a send; success, 404 and a surfacing 403 come from the last request, a 403 only after both were refused |
| CsrfSafety.EveryRunEnds | src/sap_cloud_sdk/adms/_http.py:278-354 | no interleaving of n sends is longer than 9n steps, and one that cannot go on has finished every send |
| CsrfSafety.HistoryIgnored | src/sap_cloud_sdk/adms/_http.py:278-354 | two states that differ in recorded history alone allow the same runs and end alike in the token map, places and outcomes |
| OrderedCache.ApplyKeepsBound | src/sap_cloud_sdk/agentgateway/_token_cache.py:178-229 | every cache operation keeps keys unique and the size within the bound |
| OrderedCache.RunBounded | src/sap_cloud_sdk/agentgateway/_token_cache.py:188-229 | so do whole traces |
| OrderedCache.ApplyAdds | src/sap_cloud_sdk/agentgateway/_token_cache.py:188-196 | an operation adds nothing but what was just set |
| OrderedCache.PopOldest | src/sap_cloud_sdk/agentgateway/_token_cache.py:194-196 | the eviction loop leaves the most recent entries, as many as the bound allows |
| OrderedCache.AnswerExactly | src/sap_cloud_sdk/agentgateway/_token_cache.py:40-42 | an entry is answered exactly as long as its deadline, if it has one, is ahead, and nothing without an entry |
| OrderedCache.GatewayUrlCache.Get | src/sap_cloud_sdk/agentgateway/_token_cache.py:151-155 | answer and new order of the URL cache; URLs never expire |
| OrderedCache.GatewayUrlCache.Put | src/sap_cloud_sdk/agentgateway/_token_cache.py:157-161 | the URL becomes the most recent entry and the oldest ones go |
| OrderedCache.TokenCache.GetSystemToken | src/sap_cloud_sdk/agentgateway/_token_cache.py:178-186 | a held token is returned exactly before its deadline and becomes the most recent; an expired one is dropped |
| OrderedCache.TokenCache.SetSystemToken | src/sap_cloud_sdk/agentgateway/_token_cache.py:188-196 | new contents after setting and evicting |
| OrderedCache.TokenCache.InvalidateSystemToken | src/sap_cloud_sdk/agentgateway/_token_cache.py:198-203 | exactly that key's entry goes |
| OrderedCache.TokenCache.GetUserToken | src/sap_cloud_sdk/agentgateway/_token_cache.py:205-214 | as for system tokens, in the user dictionary |
| OrderedCache.TokenCache.SetUserToken | src/sap_cloud_sdk/agentgateway/_token_cache.py:216-229 | as for system tokens, in the user dictionary |
| OrderedCache.TokenCache.InvalidateUserToken | src/sap_cloud_sdk/agentgateway/_token_cache.py:231-235 | exactly that key's entry goes |
| OrderedCache.TokenCache.ClearAll | src/sap_cloud_sdk/agentgateway/_token_cache.py:264-267 | both dictionaries are empty |
| CacheLaws.LargerCacheIncludesSmaller | src/sap_cloud_sdk/agentgateway/_token_cache.py:178-235 | for every trace and clock, the smaller cache's entries are a subsequence of the larger one's, which has at most the difference of the bounds more |
| CacheLaws.LargerCacheHitsMore | src/sap_cloud_sdk/agentgateway/_token_cache.py:178-186 | wherever the smaller cache hits, the larger one gives the same answer |
| CacheLaws.EntriesAreLatest | src/sap_cloud_sdk/agentgateway/_token_cache.py:188-235 | whatever is cached for a key is what was last set for it and not invalidated since |
| CacheLaws.CacheNeverInvents | src/sap_cloud_sdk/agentgateway/_token_cache.py:178-229 | every answer is a miss or that of a dictionary that never evicts, and the size stays within the bound |
| CacheLaws.KeptUnlessExpired | src/sap_cloud_sdk/agentgateway/_token_cache.py:188-229 | a value overtaken by fewer keys than the bound is still there unless a lookup found it expired |
| CacheLaws.CacheForgetsOnlyOvertaken | src/sap_cloud_sdk/agentgateway/_token_cache.py:178-229 | conversely the never-evicting answer is returned if fewer other keys than the bound were set or hit since this key was |
| CacheLaws.AnsweredUntilDeadline | src/sap_cloud_sdk/agentgateway/_token_cache.py:40-229 | what was last set and not invalidated is answered exactly until its deadline while fewer other keys than the bound were used |
| TokenExpiry.ComputeExpiresAt | src/sap_cloud_sdk/agentgateway/_token_cache.py:95-137 | before the deadline, and with both clocks read at once only before it, more than the buffer is left of expires_at (a number, a text that reads as one, else a date), where that is unusable of expires_in, then of the access token's and the ID token's exp; without any, the fallback has not run out |
| TokenExpiry.ComputeExpiresAtFromBearer | src/sap_cloud_sdk/agentgateway/_token_cache.py:243-260 | the same for a bearer header, from the JWT's own exp (section 4.1.4 of RFC 7519) or the fallback |
| TokenExpiry.HitsKeepTheMargin | src/sap_cloud_sdk/agentgateway/_token_cache.py:95-186 | over any calls, a hit is the token last filed under this key and not dropped, whose response, read field by field, leaves strictly more than the buffer, or the fallback time |
| TokenExpiry.FiledTokenServedExactly | src/sap_cloud_sdk/agentgateway/_token_cache.py:95-260 | conversely a token just filed is served exactly as long as its response leaves that margin |
| TokenExpiry.Serve | src/sap_cloud_sdk/agentgateway/_token_cache.py:105-260 | the cache itself, fed with the deadlines the two methods compute, answers every question with such a token or none |
| TokenExpiry.NoMarginNoHit | src/sap_cloud_sdk/agentgateway/_token_cache.py:95-186 | a token whose response leaves no margin when it is filed is never served |
| LobAuth.AuthClient.Lookup | src/sap_cloud_sdk/agentgateway/_lob.py:202-212 | both caches are asked; a hit is exactly a non-empty token under the caller's key in its own kind's dictionary and a non-empty URL of its scope, neither over |
| LobAuth.AuthClient.Store | src/sap_cloud_sdk/agentgateway/_lob.py:235-244 | token and gateway URL are stored under the keys of this identity |
| LobAuth.HitExactly | src/sap_cloud_sdk/agentgateway/_lob.py:207-212 | when a lookup hits, told from the entries |
| LobAuth.StoredIsHit | src/sap_cloud_sdk/agentgateway/_lob.py:202-244 | what was stored for an identity, system or user, is its next hit until the token's deadline |
| LobAuth.ScopeKeysDiffer | src/sap_cloud_sdk/agentgateway/_lob.py:66-73 | two scope keys coincide exactly for the same tenant and kind of authentication |
| LobAuth.HitIsOwn | src/sap_cloud_sdk/agentgateway/_lob.py:273-283 | a hit was fetched for exactly this identity, its URL for this tenant and kind |
| LobAuth.SeparateKeysIsolate | src/sap_cloud_sdk/agentgateway/_lob.py:202-318 | every interleaving of suspended calls returns to each caller only tokens and URLs fetched for it, if keys are separate |
| LobAuth.SharedKeyExactly | src/sap_cloud_sdk/agentgateway/_token_cache.py:269-273 | two users share hashed text exactly if one JWT spells the other, the separator and part of the other's tenant |
| LobAuth.NoSeparatorSeparates | src/sap_cloud_sdk/agentgateway/_token_cache.py:269-273 | JWTs without the separator keep all users apart, and so do tenants without it |
| LobAuth.SharedKeyMixesTokens | src/sap_cloud_sdk/agentgateway/_lob.py:273-318 | a run in which two users with shared hashed text are given one token |
| LobIsolation.KeptApartIsolates | src/sap_cloud_sdk/agentgateway/_lob.py:202-318 | every interleaving is isolated if keys are separate or the caches too small to mix users up |
| LobIsolation.IsolationExactly | src/sap_cloud_sdk/agentgateway/_lob.py:202-318 | for caches of every size, all interleavings of all calls by a set of identities are isolated exactly then |
| IasFetcher.InMemoryTokenCache.Get | src/sap_cloud_sdk/adms/_token_cache.py:61-70 | the token exactly while its time has not come; afterwards the entry is dropped |
| IasFetcher.InMemoryTokenCache.Put | src/sap_cloud_sdk/adms/_token_cache.py:72-74 | the entry with its expiry; others untouched |
| IasFetcher.InMemoryTokenCache.Delete | src/sap_cloud_sdk/adms/_token_cache.py:76-78 | exactly that entry goes |
| IasFetcher.IasTokenFetcher.RefreshIfRotated | src/sap_cloud_sdk/adms/_ias_fetcher.py:104-110 | a rotation that can be read replaces the credentials and the whole cache; one that cannot raises and changes nothing |
| IasFetcher.IasTokenFetcher.RequestToken | src/sap_cloud_sdk/adms/_ias_fetcher.py:129-144 | new state and result of one `get_token` call, also where the reload raises |
| IasFetcher.IasTokenFetcher.Fetch | src/sap_cloud_sdk/adms/_ias_fetcher.py:173-211 | a usable response yields its token with its stated lifetime, 3600 seconds where none is stated, less 60 and never below zero |
| IasFetcher.IasTokenFetcher.Exchange | src/sap_cloud_sdk/adms/_ias_fetcher.py:146-167 | an exchange neither reads nor writes the cache, and returns the answer's token if it is usable |
| IasFetcher.TokensMatchCredentials | src/sap_cloud_sdk/adms/_ias_fetcher.py:104-144 | across any pattern of rotations a returned token was granted under the credentials now applied |
| IasFetcher.CacheHitsHaveTimeLeft | src/sap_cloud_sdk/adms/_ias_fetcher.py:129-144 | a token served from the cache was the answer to an earlier call, with more than 60 seconds left of the lifetime stated there, or of an hour where none is |
| IasFetcher.FetchedTokenServedExactly | src/sap_cloud_sdk/adms/_ias_fetcher.py:129-211 | a token just fetched is served without a new grant exactly until 60 seconds before its stated lifetime ends |
| IasFetcher.RotationForgetsForGood | src/sap_cloud_sdk/adms/_ias_fetcher.py:104-144 | from a reload on, in every continuation, no token granted before it is returned again |
| IasFetcher.NeverOldExactly | src/sap_cloud_sdk/core/secret_resolver/_config_factory.py:73-93 | after a call that saw the binding changed, no token granted before it is ever returned exactly if that call's reload succeeded or the cached token's time was up |
| IasFetcher.OldTokenServed | src/sap_cloud_sdk/adms/_ias_fetcher.py:104-132 | a reload that raised: the next call is served the old token |
| IasFetcher.OldTokenMeans | src/sap_cloud_sdk/adms/_ias_fetcher.py:104-144 | in any run, an old token returned after a change means that reload raised and none has succeeded since |
| SecretWatcher.Watcher.ConfigureDirectMode | src/sap_cloud_sdk/aicore/__init__.py:271-305 | of the five variables, in program order, exactly those written before an exception have what their file held, or all of them without one |
| SecretWatcher.Watcher.Watch | src/sap_cloud_sdk/aicore/__init__.py:366-380 | the loop is the run of its polls; the directory time is recorded only after a reload that raised nothing |
| SecretWatcher.PollSettles | src/sap_cloud_sdk/aicore/__init__.py:368-380 | each poll keeps every field at least as new as the recorded time's version, or the disk ahead of it |
| SecretWatcher.FreshLoadSuffices | src/sap_cloud_sdk/aicore/__init__.py:366-380 | from a fresh enough load, whenever a poll finds the time unchanged all fields are the current version, even after failed reloads |
| SecretWatcher.StaleStartRests | src/sap_cloud_sdk/aicore/__init__.py:366-380 | a load older than the first directory time is rested on |
| SecretWatcher.WatcherCorrectExactly | src/sap_cloud_sdk/aicore/__init__.py:310-380 | the exact condition for never resting on stale or torn credentials, also with a directory that comes and goes |
| SecretWatcher.StillDiskRepairs | src/sap_cloud_sdk/aicore/__init__.py:368-380 | on a disk that holds still one poll that raises nothing makes every field current |
| SecretWatcher.ReloadUpToDateExactly | src/sap_cloud_sdk/aicore/__init__.py:271-305 | a completed reload brings all fields up to the recorded version exactly if each file could be read or its field was new enough |
| SecretWatcher.SwallowedReadSticks | src/sap_cloud_sdk/aicore/__init__.py:368-380 | while the directory's time stays, further polls change nothing |
| SecretWatcher.RestsUpToDateExactly | src/sap_cloud_sdk/aicore/__init__.py:271-380 | over whole runs, after a completed reload and while the directory's time stays, all fields are as new as the recorded version exactly if that reload could read each file or found its field new enough |
| Discovery.FanOutBounded | src/sap_cloud_sdk/agentgateway/_customer.py:781-798 | never more fetches in flight than the bound, and at most two steps a server |
| Discovery.FanOutReturnsAnswers | src/sap_cloud_sdk/agentgateway/_customer.py:795-798 | whatever the completion order, the gathered list is the servers' outcomes in server order |
| Discovery.DeadlockFreeExactly | src/sap_cloud_sdk/agentgateway/_customer.py:781-798 | no run gets stuck exactly if the bound is at least one or there is nothing to fetch |
| Discovery.MergeResults | src/sap_cloud_sdk/agentgateway/_customer.py:800-811 | the merge loop and name filter compute the filtered concatenation of the successful results |
| Discovery.MergedIsSequential | src/sap_cloud_sdk/agentgateway/_customer.py:775-811 | that is what a sequential loop that skips failures returns |
| Discovery.ScheduleIndependent | src/sap_cloud_sdk/agentgateway/_customer.py:775-811 | for every schedule and every set of failing servers, concurrent discovery returns the sequential result |
| Discovery.PrefilterIsPostfilter | src/sap_cloud_sdk/agentgateway/_customer.py:775-777 | filtering by ORD ID before fetching gives what filtering afterwards gives |
| Discovery.FilterFragments | src/sap_cloud_sdk/agentgateway/_lob.py:452-462 | exactly the fragments whose URL, or the empty text for none, says a wanted ORD ID, in order; their targets are the wanted ones |
| Discovery.CollectTargets | src/sap_cloud_sdk/agentgateway/_lob.py:452-474 | in fragment order exactly the fragments with a wanted URL, each with its name and that URL, the upper-case property before the lower-case one |
| Discovery.LobMerged | src/sap_cloud_sdk/agentgateway/_lob.py:452-502 | the LoB flow's merge is a sequential loop over the fragments |
| Discovery.OneAnswerATarget | src/sap_cloud_sdk/agentgateway/_lob.py:464-488 | one gathered answer for each target |
| Discovery.LobPrefilterIsPostfilter | src/sap_cloud_sdk/agentgateway/_lob.py:452-462 | here too filtering by ORD ID before fetching gives what filtering afterwards gives |
| Discovery.LobScheduleIndependent | src/sap_cloud_sdk/agentgateway/_lob.py:476-502 | for every schedule the LoB flow returns that |
| Labels.AddLabels | src/sap_cloud_sdk/destination/_local_client_base.py:468-474 | the ADD loops compute the upsert of the patch into the current labels |
| Labels.DeleteLabels | src/sap_cloud_sdk/destination/_local_client_base.py:475-478 | DELETE keeps exactly the labels the patch does not name |
| Labels.AddYields | src/sap_cloud_sdk/destination/_local_client_base.py:468-474 | unique keys, in the order first seen in the current labels and then the patch, the last value winning |
| Labels.AddComposes | src/sap_cloud_sdk/destination/_local_client_base.py:468-474 | two ADDs are one ADD of both patches, as lists |
| Labels.DeleteYields | src/sap_cloud_sdk/destination/_local_client_base.py:475-478 | which labels stay, with their multiplicity |
| Labels.DeleteKeepsInOrder | src/sap_cloud_sdk/destination/_local_client_base.py:475-478 | DELETE keeps, in order, exactly the labels whose key the patch does not name |
| Labels.DeleteComposes | src/sap_cloud_sdk/destination/_local_client_base.py:475-478 | two DELETEs are one DELETE of both patches |
| Labels.AddThenDeleteExactly | src/sap_cloud_sdk/destination/_local_client_base.py:468-478 | ADD then DELETE of a patch is DELETE exactly if the labels that stay have unique keys |
| LocalStore.Store.IndexByName | src/sap_cloud_sdk/destination/_local_client_base.py:122-143 | the place of the first entry that carries the name, as a text in the primary field or, where that holds nothing, in the alternative one; or -1 |
| LocalStore.Store.IndexByNameAndNoTenant | src/sap_cloud_sdk/destination/_local_client_base.py:163-168 | the same among tenant-less entries |
| LocalStore.Store.CreateEntity | src/sap_cloud_sdk/destination/_local_client_base.py:290-311 | appended to its collection, or a conflict and nothing changed |
| LocalStore.Store.UpdateEntity | src/sap_cloud_sdk/destination/_local_client_base.py:313-347 | the first entry of that name replaced, preserved fields carried over, or not found |
| LocalStore.Store.DeleteEntity | src/sap_cloud_sdk/destination/_local_client_base.py:349-370 | the first entry of that name removed, or not found |
| LocalStore.Store.PatchLabelsInStore | src/sap_cloud_sdk/destination/_local_client_base.py:457-486 | the first entry of that name has, after ADD, each key of its labels and the patch where first seen with the last value, after DELETE in order what the patch does not name; nothing else changes; not found without such an entry, refused for another action |
| LocalStore.NameOfTold | src/sap_cloud_sdk/destination/_local_client_base.py:122-127 | which name an entry carries, over its two name fields |
| LocalStore.PatchTold | src/sap_cloud_sdk/destination/_local_client_base.py:466-484 | what each action makes of an entry's labels, and which actions are refused |
| LocalStore.Store.CreateProviderEntity | src/sap_cloud_sdk/destination/local_client.py:161-183 | a subaccount destination conflicts only with a tenant-less one |
| LocalStore.Store.DeleteProviderEntity | src/sap_cloud_sdk/destination/local_client.py:221-244 | only a tenant-less subaccount destination is removed |
| LocalStore.PreservedFields | src/sap_cloud_sdk/destination/_local_client_base.py:334-340 | an update carries over exactly the listed fields that held something |
| StoreLaws.ApplyRefines | src/sap_cloud_sdk/destination/_local_client_base.py:290-370 | on a collection with unique names each operation does to its partial map what it says |
| StoreLaws.OtherCollections | src/sap_cloud_sdk/destination/_local_client_base.py:290-370 | the other collection is untouched |
| StoreLaws.CollectionsApart | src/sap_cloud_sdk/destination/_local_client_base.py:290-370 | however operations on the two collections are mixed, each ends as if it had been alone |
| StoreLaws.UniqueRepresented | src/sap_cloud_sdk/destination/_local_client_base.py:122-143 | any collection with unique resolved names is a partial map from exactly those names |
| StoreLaws.RunRefines | src/sap_cloud_sdk/destination/_local_client_base.py:290-370 | every run keeps names unique and is, for each collection, a run on a partial map |
| StoreLaws.RepliesRefine | src/sap_cloud_sdk/destination/_local_client_base.py:290-370 | after any run: conflict iff present, not found iff absent |
| ProviderLaws.UpdateReachesFirstEntry | src/sap_cloud_sdk/destination/local_client.py:185-205 | which entry a subaccount update replaces, and what a provider lookup then sees, also when the update brings a tenant |
| ProviderLaws.CreatedBesideSubscriber | src/sap_cloud_sdk/destination/local_client.py:146-205 | a provider destination created beside a subscriber's of that name is not reached by updates |
| ProviderLaws.FoundInView | src/sap_cloud_sdk/destination/_local_client_base.py:145-168 | a tenant-less lookup finds what a plain lookup finds among the tenant-less entries |
| ProviderLaws.OpShows | src/sap_cloud_sdk/destination/local_client.py:146-244 | an operation that reaches the provider's own entry does to the provider's map what it says |
| ProviderLaws.MissesView | src/sap_cloud_sdk/destination/local_client.py:185-205 | one that reaches a subscriber's entry changes nothing the provider sees and is done, or refused as malformed, never not found |
| ProviderLaws.ProviderRunRefines | src/sap_cloud_sdk/destination/local_client.py:146-244 | over any mix of creating, deleting, updating and patching, tenant-less names stay unique and the provider's view is a run on a partial map |
| ProviderLaws.ProviderRepliesRefine | src/sap_cloud_sdk/destination/local_client.py:146-244 | after any run, every reply: conflict iff the provider has the entry, not found iff it has not and no subscriber's entry is reached instead |
| AccessStrategy.SameEntity | src/sap_cloud_sdk/destination/_local_client_base.py:172-218 | for every list, name, tenant and strategy the local resolver and the cloud resolver give the same entity, refusal or failure |
| AccessStrategy.SameList | src/sap_cloud_sdk/destination/certificate_client.py:541-623 | and the same list or failure, with a client whose list fetch raises as the certificate and fragment clients' does |
| AccessStrategy.ParseDestinations | src/sap_cloud_sdk/destination/client.py:893-901 | the destination client's list parser: entries with missing fields skipped, any other exception ends it |
| AccessStrategy.DestinationListsAgreeExactly | src/sap_cloud_sdk/destination/client.py:893-990 | for every list, tenant and strategy, exactly when the destination client lists what the local store lists |
| AccessStrategy.ParsableListsAgree | src/sap_cloud_sdk/destination/client.py:893-990 | where entries lack fields at worst: exactly if every entry on the preferred side parses and, if it shows none, every entry on the other |
| AccessStrategy.TypelessDestination | src/sap_cloud_sdk/destination/client.py:893-901 | an entry without a type: the local store raises, the destination client lists nothing |
| AccessStrategy.SideIsFetch | src/sap_cloud_sdk/destination/_local_client_base.py:191-260 | each side of the local resolver is a raising fetch with or without the tenant |
| AccessStrategy.ResolvesReachable | src/sap_cloud_sdk/destination/_local_client_base.py:172-218 | a lookup never hands out another tenant's entry, and finds nothing exactly if no entry of that name is reachable |
| AccessStrategy.PreferredSideWins | src/sap_cloud_sdk/destination/_local_client_base.py:202-218 | subscriber-first is subscriber-only where the tenant has an entry of that name and provider-only where not; provider-first likewise |
| AccessStrategy.FirstEntryDecides | src/sap_cloud_sdk/destination/_local_client_base.py:129-218 | on one side the first entry of the name decides, and a lookup fails where that one does not parse |
| AccessStrategy.PreferredListWins | src/sap_cloud_sdk/destination/_local_client_base.py:259-275 | and for lists, with any entry on the preferred side |
| AccessStrategy.OneSideLists | src/sap_cloud_sdk/destination/_local_client_base.py:245-260 | on one side a list is, in order, what exactly that side's entries parse to, and fails exactly if one of them does not parse |
| AccessStrategy.ViewsPartition | src/sap_cloud_sdk/destination/_local_client_base.py:245-260 | with non-empty tenant names, tenant-less and per-tenant views share the list out, every entry once |
| AccessStrategy.OverlapExactly | src/sap_cloud_sdk/destination/_local_client_base.py:245-260 | a tenant's view overlaps the provider's exactly for the empty tenant name |
| Redirects.RequestFollowingSameOrigin | src/sap_cloud_sdk/destination/_destination_http_client.py:148-196 | against any answers: the requests made, hop by hop, at most five, with what is passed on to each, and which answer is returned or whether it raises |
| Redirects.LaterRequestsInOrigin | src/sap_cloud_sdk/destination/_destination_http_client.py:180-195 | every later request is in the configured origin, answers a redirect and carries no query |
| Redirects.SeeOtherSticks | src/sap_cloud_sdk/destination/_destination_http_client.py:164-195 | after a 303 (section 15.4.4 of RFC 9110) all later requests are GET without JSON body; before it both are the caller's; `data` and `files` go along every time |
| Redirects.PlainExactly | src/sap_cloud_sdk/destination/_destination_http_client.py:164-195 | for every exchange: the requests after a 303 carry no body at all exactly if no `data` or `files` were passed or no 303 was followed |
| Redirects.AlwaysPlainExactly | src/sap_cloud_sdk/destination/_destination_http_client.py:164-195 | before the call, against every server: exactly if none are passed, or no 303 can be followed |
| Redirects.FollowedFromAnywhere | src/sap_cloud_sdk/destination/_destination_http_client.py:177-195 | what can be followed from one URL can be followed from any URL of the origin, its location given in full |
| Redirects.SendsPlainExactly | src/sap_cloud_sdk/destination/_destination_http_client.py:102-195 | for a destination URL with scheme, host and no user information: exactly if none are passed |
| Redirects.DataSentAgain | src/sap_cloud_sdk/destination/_destination_http_client.py:164-195 | a POST with `data` answered 303 goes on as a GET that carries the data again |
| Redirects.ExchangeInOrigin | src/sap_cloud_sdk/destination/_destination_http_client.py:148-196 | the whole exchange is in the origin exactly if its first URL is |
| Redirects.FollowedExactly | src/sap_cloud_sdk/destination/_destination_http_client.py:175-190 | an answer is followed exactly for 301, 302, 303, 307 or 308 with a location in the same origin and no user information |
| Redirects.FailsExactly | src/sap_cloud_sdk/destination/_destination_http_client.py:177-188 | an exchange is cut short by an exception exactly for a reference that cannot be joined or a target with a malformed port |
| Redirects.DowngradeImplied | src/sap_cloud_sdk/destination/_destination_http_client.py:185-190 | what the HTTPS-to-HTTP test adds to the origin test |
| Redirects.SameOriginExactly | src/sap_cloud_sdk/destination/_destination_http_client.py:38-44 | two URLs have one origin exactly if scheme, host and effective port agree, 443 standing for https and 80 for the rest where none is given |
| Redirects.SplitAbsolute | src/sap_cloud_sdk/destination/_destination_http_client.py:40-44 | the scheme of an absolute URL counts in lower case (section 3.1 of RFC 3986), its authority ends at path, query or fragment |
| Redirects.PathKeepsOrigin | src/sap_cloud_sdk/destination/_destination_http_client.py:132 | appending a path to the configured URL keeps its origin |
| Redirects.Send | src/sap_cloud_sdk/destination/_destination_http_client.py:102-146 | in either mode the first request goes to the configured URL and the path, without slashes between but one, and every one to the configured origin, later ones without query and after a 303 as GET without JSON body; one request is made without redirects, and none where the URL's port is malformed |
| Entities.ExtractUnknown | src/sap_cloud_sdk/destination/_models.py:290-313 | the text fields under unknown keys, whatever the order of the fields |
| Entities.MergeProperties | src/sap_cloud_sdk/destination/_models.py:362-367 | properties are added without overriding the payload, whatever their order |
| Entities.DestinationToDict | src/sap_cloud_sdk/destination/_models.py:330-367 | the payload: core fields that are present, then the properties |
| Entities.ExtractMerged | src/sap_cloud_sdk/destination/_models.py:290-366 | extraction undoes merging exactly if no property has a known key |
| Entities.PayloadRoundTripExactly | src/sap_cloud_sdk/destination/_models.py:216-367 | serialise, parse, serialise gives the first payload exactly if required fields are not blank and no property has a lower-case or runtime key |
| Entities.EntityRoundTripExactly | src/sap_cloud_sdk/destination/_models.py:216-367 | parsing what was serialised gives the entity, enums normalised and runtime data dropped, exactly if no property has any known key |
| Entities.ReparsedIsSame | src/sap_cloud_sdk/destination/_models.py:216-367 | whatever parses is reproduced from its own payload |
| Entities.UnknownFieldsSurvive | src/sap_cloud_sdk/destination/_models.py:290-313 | every unknown text field survives with its key casing; other unknown fields are dropped |
| Entities.CasingIrrelevantExactly | src/sap_cloud_sdk/destination/_models.py:261-273 | both casings of the core keys parse alike, lower case deciding, exactly if no optional field is present but empty |
| Entities.ParsesExactly | src/sap_cloud_sdk/destination/_models.py:143-288 | an object parses exactly if name and type so found are texts with a character that is not white space; which other objects raise another exception than for missing fields |
| Entities.OptionalFieldsRead | src/sap_cloud_sdk/destination/_models.py:156-273 | URL, proxy type, authentication and description are what stands under the lower-case key or else the upper-case one, the choices being members where the text names one |
| Entities.PropertiesRead | src/sap_cloud_sdk/destination/_models.py:290-313 | the properties of a parsed destination are exactly the text fields under other than the fifteen known keys |
| Entities.NoKnownProperties | src/sap_cloud_sdk/destination/_models.py:290-313 | a known key never ends up among the properties |
| Entities.FragmentRoundTripExactly | src/sap_cloud_sdk/destination/_models.py:842-890 | both round trips of a fragment, exactly |
| Entities.FragmentParsesExactly | src/sap_cloud_sdk/destination/_models.py:842-874 | which objects parse to a fragment, to which name and properties; the upper-case key comes first |
| Entities.CertificateRoundTripExactly | src/sap_cloud_sdk/destination/_models.py:766-822 | when a certificate's payload survives: an empty type does not |
| Entities.CertificateParsesExactly | src/sap_cloud_sdk/destination/_models.py:766-804 | the same for certificates, with name, content and type |
| Entities.CertificateEntityExactly | src/sap_cloud_sdk/destination/_models.py:766-822 | when the certificate itself comes back |
| TlsFailure.IsTlsFailure | src/sap_cloud_sdk/cbc/client.py:102-119 | ends on every heap, cyclic chains included, and answers whether an SSL error is reachable by cause or else context |
| TlsFailure.ReachableFrom | src/sap_cloud_sdk/cbc/client.py:113-118 | an exception leads to an SSL error exactly if it is one or its cause does, or without a cause its context |
| ClientRecovery.CbcClient.RebuildHttpClient | src/sap_cloud_sdk/cbc/client.py:537-553 | the new client is current and the previous one closed, or with a failing factory nothing changed |
| ClientRecovery.CbcClient.Request | src/sap_cloud_sdk/cbc/client.py:481-522 | result and sends told from the answers: one retry, exactly after a TLS failure with a working factory; and those of the interleaving machine with one thread |
| ClientRecovery.StepInv | src/sap_cloud_sdk/cbc/client.py:481-553 | every step of every thread keeps the books on clients, the lock and the threads |
| ClientRecovery.Conservation | src/sap_cloud_sdk/cbc/client.py:549-553 | in every interleaving the current client is never closed by a rebuild, each replaced client is closed exactly once, and outside the lock no other client exists |
| ClientRecovery.BoundedRequest | src/sap_cloud_sdk/cbc/client.py:481-505 | at most two sends and one rebuild a request |
| ClientRecovery.EndsAsAnswered | src/sap_cloud_sdk/cbc/client.py:481-522 | in every interleaving a finished request ends as one of its own answers says: from 500 on a server error, from 400 on a client error, a TLS failure only at the second send or without a factory |
| ClientRecovery.FailingFactoryRun | src/sap_cloud_sdk/cbc/client.py:481-553 | in every interleaving in which the factory always fails, or there is none, the first client stays the only one, open, and no request finds it closed |
| ClientRecovery.RebuildsAddUp | src/sap_cloud_sdk/cbc/client.py:549-553 | every client beyond the first was built by one request's rebuild |
| ClientRecovery.ClosedOnlyByOthers | src/sap_cloud_sdk/cbc/client.py:524-553 | a request finds its client closed only where another request has rebuilt |
| ClientRecovery.ClosedWitness | src/sap_cloud_sdk/cbc/client.py:481-553 | a run in which a request is refused by its closed client |
| ClientRecovery.ClosedExactly | src/sap_cloud_sdk/cbc/client.py:481-553 | a request can hold a closed client, and end for that, exactly with two requests or more and a client that rebuilds |
| ClientRecovery.WaiterBuildsAgain | src/sap_cloud_sdk/cbc/client.py:549-553 | a thread that gets the lock builds a client of its own, whatever happened while it waited |
| ClientRecovery.HerdRebuilds | src/sap_cloud_sdk/cbc/client.py:537-553 | n requests that fail together build n clients |
| ClientRecovery.OneRebuildExactly | src/sap_cloud_sdk/cbc/client.py:537-553 | one rebuild serves all requests exactly if there is at most one request or nothing rebuilds |
| ClientRecovery.EveryRunEnds | src/sap_cloud_sdk/cbc/client.py:481-553 | n requests take at most 8n steps, and until all are done one can move |
| ODataKeys.ScanExactly | src/sap_cloud_sdk/adms/_http.py:67-77 | a scanner reads a value and leaves a rest exactly from the quoted value followed by a rest that starts with no quote |
| ODataKeys.ReadBack | src/sap_cloud_sdk/adms/_http.py:67-77 | a quoted key can be read back whatever follows it, short of a quote |
| ODataKeys.PathsExactly | src/sap_cloud_sdk/adms/_http.py:117-159 | over all six entity sets, two keys have one path exactly if they are keys of the same entity: texts as they are, GUIDs up to spelling |
| ODataKeys.ReadsExactly | src/sap_cloud_sdk/adms/_http.py:117-159 | a server that reads entity set, key property, literal and draft flag off a path reads the entity it was built for and no other, in all six entity sets |
| ODataKeys.DownloadReads | src/sap_cloud_sdk/adms/_document_api.py:153-159 | a download path is the relation's path, the action and the quoted version |
| ODataKeys.TargetsExactly | src/sap_cloud_sdk/adms/_http.py:377-395 | two keys give one request target exactly if they are keys of the same entity, where texts count up to their first '#' only |
| ODataKeys.TargetsTellApart | src/sap_cloud_sdk/adms/_http.py:377-395 | keys without '#' are told apart by the request as they are by the path |
| ODataKeys.WholePathExactly | src/sap_cloud_sdk/adms/_http.py:377-395 | the path within the request is the whole key path exactly if the key has neither '#' nor '?' |
| ODataKeys.GuidPathsExactly | src/sap_cloud_sdk/adms/_http.py:131-154 | paths with GUID keys coincide exactly for spellings of one GUID |
| ODataKeys.GuidShape | src/sap_cloud_sdk/adms/_http.py:80-104 | a GUID literal is 36 lower-case digits and hyphens |
| ODataKeys.GuidDenotes | src/sap_cloud_sdk/adms/_http.py:80-104 | its hyphens set off 8, 4, 4, 4 and 12 digits, which denote the number that was read |
| ODataKeys.CanonicalFixedPoint | src/sap_cloud_sdk/adms/_http.py:80-104 | the canonical form is its own canonical form |
| ODataKeys.SameLiteralExactly | src/sap_cloud_sdk/adms/_http.py:80-104 | two values have one literal exactly if they stand for one number |
| ODataKeys.SpellingsAgree | src/sap_cloud_sdk/adms/_http.py:80-104 | bare, hyphenated, braced and URN spellings give one literal |
| ODataKeys.CaseNeverShows | src/sap_cloud_sdk/adms/_http.py:80-104 | the same digits in either case of letters give one literal |
| ODataKeys.DownloadPathsExactly | src/sap_cloud_sdk/adms/_document_api.py:136-159 | a download path determines the document up to the spelling of its GUID, the draft flag and the version |

## Left out

- HTTP, TLS, JSON decoding, MCP sessions, telemetry, logging, environment and file access are inputs; configuration loading, exception classes and the per-endpoint API classes hold no state or algorithm.
- The hash of user JWTs, cut to 16 hexadecimal digits, is taken as injective: user tokens are filed under the text that is hashed.
- SecretWatcher.WatcherCorrectExactly: takes the directory times of different versions to differ, none to be zero and, for the polls before the quiet one that could inspect the directory, every file to be readable; what an unreadable file costs is SecretWatcher.RestsUpToDateExactly.
- `urlparse`, `urljoin` and `uuid.UUID`: scheme and authority splitting and the GUID clean-up are written out; host and port within an authority, joining references and reading digits in base 16 are parameters. Removal of control characters from URLs and percent-encoding of what is sent are not modelled.
- Expiry data that is not a number or is infinite, negative cache bounds, and clocks that run at different rates.
- The missing-file recovery of the local store, which takes a lock its callers already hold; the file is taken to exist. Its read and replace-label operations, and labels that are no list of labels.
- Calls of `close()` by users of the CBC client, and what a close does to a request already in flight beyond letting it fail in any way.
- IasFetcher.IasTokenFetcher.RequestToken: concurrent use across a rotation, where a fetch in flight writes into whichever cache is current when it ends.
- IasFetcher.IasTokenFetcher.Exchange: it does not look for a rotation, as in the code, so an exchange may use credentials from before one.
- Keyword arguments of a destination request other than `data` and `files`: they are handed on to every hop unchanged. The verb is taken as it is sent, in upper case.
- A claim that a CSRF retry uses a token fetched after the rejection: a sibling's earlier fetch may be stored in between.
- `MCPToolFilter.gtids`, which neither of the two discovery functions modelled consults, and the agent-card discovery that shares the fan-out.
- The reactive credential reload and other threads that write the same environment variables.
- Parsing of runtime data (authentication tokens and certificates of the consumption API), and property values that are not texts.
- Exception-group searches, feature look-ups, underscore name mapping, the split of a name and its level, query options and document de-duplication would add only easy members.

# Models and proofs for the Warpnet–Fediverse gateway

The gateway connects Warpnet member networks to the Fediverse: it streams requests to member nodes,
polls what local users post and follow, delivers activities to remote followers, maps remote notes
and accounts into Warpnet, and keeps all of its state in memory. This project models its protocols
and its text formats in Dafny and proves what they guarantee over all runs and all inputs.

`dafny verify dfyconfig.toml` checks everything.

Concurrent code (goroutines, channels, semaphores, timers) is a state machine whose runs are all
interleavings of atomic steps. An object whose methods update its fields is a class whose methods are
proved equal to a specification function, and the theorems are about that function over whole
histories. Pure text code is functions. The network, the clock, the choice of a `select`, map
iteration order, cache expiry and remote answers are inputs, or steps that may happen at any moment.

| file | what it models |
|---|---|
| `HedgedRequest.dfy`, `HedgeTiming.dfy` | one hedged member request, as interleavings and on a clock |
| `Discovery.dfy`, `NodeClient.dfy` | the good-peer list, candidate selection, owner cache, throttle cooldown, and the calls using them |
| `MultiNet.dfy` | confinement of a user's traffic to their home network |
| `RecencyCache.dfy`, `TweetPolling.dfy` | the bounded seen set and the tweet poller |
| `Outbound.dfy`, `FollowPolling.dfy` | the scanner's start/stop hysteresis, the follow-diff poller |
| `Delivery.dfy` | the semaphore shared by accepts, inbound forwards and follower fan-outs |
| `SignedGet.dfy`, `WorkerPool.dfy` | cache plus single flight, the bounded rendering pools |
| `RateLimiting.dfy` | latching limiters and the drain that replaces them |
| `Text.dfy`, `Base64.dfy`, `Percent.dfy` | the text operations and encodings the codecs use |
| `MediaRefs.dfy`, `StatusRefs.dfy`, `Quotes.dfy`, `FollowerIds.dfy`, `Directory.dfy` | media references, status ids, quotes, account ids, directory paging |

Four of the guarantees one might expect do not hold of the code; each is stated with its exact condition:

* A user can be stopped by a single empty scan after being started, because starting does not clear
  the count of empty scans: `Outbound.OneEmptyReadCanStop`. The comment on `emptyScansToStop`
  (outbound.go:259-261) speaks of consecutive scans; a user listed twice in one scan is stopped by it:
  `Outbound.ListedTwiceIsStopped`.
* A following that fails to resolve is announced as an unfollow as soon as some other following
  resolves: `FollowPolling.EventsExactly`, `FollowPolling.UnresolvableIsUnfollowed`.
* After a failed seed fetch the first poll publishes the page it finds: `TweetPolling.FirstPollPublishes`,
  `TweetPolling.FailedSeedReplays`.
* A pushed note and the same note pulled are classified differently when it quotes something foreign
  but its text opens with `RE:` and one of our statuses: `Quotes.PushAndPullExactly`,
  `Quotes.ForeignQuoteAnsweringOurs`.

## Model

| member | source | states |
|---|---|---|
| HedgedRequest.LaunchedInOrderOnce | nodeclient.go:294-315 | in every interleaving candidates start in list order, each at most once, never go back a stage, and none starts once the call has returned |
| HedgedRequest.SenderNeverBlocks | nodeclient.go:287-312 | a finished attempt always finds room in the reply channel, also after the call has returned |
| HedgedRequest.InFlightCountsOutstanding | nodeclient.go:296-341 | the in-flight counter is exactly the number of attempts outstanding, launched minus consumed |
| HedgedRequest.WritesAreSerial | nodeclient.go:317-343 | a write never has two attempts outstanding and reaches candidate i exactly when every earlier one's reply was consumed and useless |
| HedgedRequest.SuccessIsAnAnswer | nodeclient.go:324-336 | a body returned was answered by the candidate named and is not a rate limit |
| HedgedRequest.FailureMeansEveryone | nodeclient.go:337-350 | failure on all is returned only after every candidate was launched and answered uselessly; its reason is the last reply's error, or that it was rate limited |
| HedgedRequest.NeverStuck | nodeclient.go:323-349 | an undecided call always has a step it can take |
| HedgedRequest.MeasureDrops | nodeclient.go:307-346 | every step that changes anything lowers a measure that starts at three per candidate |
| HedgedRequest.RunsTerminate | nodeclient.go:287-351 | every run is over after a bounded number of effective moves |
| HedgeTiming.HedgingRate | nodeclient.go:75-85 | an undecided read has raced at least one candidate per elapsed hedge delay, up to all of them |
| HedgeTiming.SucceedsInTime | nodeclient.go:317-343 | a read one of whose candidates, at index k, answers after d ms succeeds by 2000k + d if that is within what is left of the request's 40 s, whatever the others do |
| HedgeTiming.DecidedInTime | nodeclient.go:307-346 | the same call is decided once that time has passed |
| HedgeTiming.AttemptsAreTimed | nodeclient.go:298-314 | no attempt runs longer than its own timeout; the winner answered within it, and a call that failed on everyone found each candidate too slow or of no use |
| HedgeTiming.TimeOrAction | nodeclient.go:322-349 | the timed model never jams: something is due or time may pass |
| Discovery.GoodIsMostRecent | discovery.go:107-121 | after any sequence of answers the good list is the first 64 of the distinct peers in most-recent-answer order, so truncating at each step loses nothing |
| Discovery.MostRecentOrder | discovery.go:107-121 | a peer stands ahead of another because it answered since the other last did |
| Discovery.FirstsAre | discovery.go:42-74 | before the cut to 64, the candidates are without repetition and exactly the eligible peers known: not relays, not this node, not the empty id |
| Discovery.FirstsInOrder | discovery.go:42-74 | they stand in the order of their first places, good peers before the routing table |
| Discovery.DemotedKeepsEveryone | discovery.go:76-90 | demoting throttled peers is a permutation that puts no cooling peer before a ready one |
| Discovery.DemotedIsStable | discovery.go:76-90 | and keeps the order within both groups |
| NodeClients.NodeClient.Remember | discovery.go:107-121 | the loop moves the peer to the front of the bounded list |
| NodeClients.NodeClient.MemberCandidates | discovery.go:42-74 | the loop computes the first 64 distinct eligible peers, demoted |
| NodeClients.CandidatesAre | discovery.go:42-90 | after the cut and the demotion candidates are distinct, at most 64 and eligible, and while they fit all the eligible peers known |
| NodeClients.NodeClient.TryMembers | nodeclient.go:287-351 | the loop is a run of the state machine, and its result, the good list and the cooldown marks are what that run's end says |
| NodeClients.ReadRoutesExactly | nodeclient.go:363-365 | a route is a read exactly when it has "/get/" somewhere in it |
| NodeClients.CallsRaceOnlyReads | nodeclient.go:317-343 | at every point of every call a route without "/get/" has at most one attempt outstanding, and an undecided one with it may race another at a hedge tick |
| NodeClients.ProfileReadsAreHedged | nodeclient.go:408-415 | the profile route is a read |
| NodeClients.MarksExactly | nodeclient.go:329-334 | a call marks exactly the peers whose reply it consumed and found rate limited, on its route |
| NodeClients.MarksCoolTheirRoute | nodeclient.go:367-376 | a call's marks hold peers back on its own route alone: there, those already marked and those it found rate limited; on every other route nothing changes |
| NodeClients.PoolExactly | nodeclient.go:262-277 | the peers asked are eligible ones known, else ones a refresh finds; nobody is asked only if neither knows one |
| NodeClients.NodeClient.Request | nodeclient.go:258-279 | the candidates are those known, or those a refresh finds; without any the call fails, and otherwise it ends as a run over them does; a body returned is not rate limited and from an eligible peer now at the front of the good list |
| NodeClients.NodeClient.OwnerNode | nodeclient.go:408-429 | the owner comes from the cache without asking anyone; otherwise the known candidates, or a refresh's, are asked for the profile, and the node it names is returned and cached |
| NodeClients.NodeClient.AskOwner | nodeclient.go:384-400 | the owner, cached or just found, is asked exactly when known and not cooling down; its answer is used, marked as throttling, or costs it its place in the cache |
| NodeClients.NodeClient.RequestUser | nodeclient.go:384-402 | the whole effect: a usable answer of the owner is the result, and in every other case that of a broadcast to the candidates known by then; any body returned is not rate limited and from the peer at the front |
| NodeClients.OwnerAnswerDoes | nodeclient.go:388-399 | a useful answer of the owner is the result, a rate limit marks it, a failure forgets it, and no other user's owner changes |
| NodeClients.CooledExactly | nodeclient.go:384-399 | after the owner's part the cooldown holds what it held, the members its profile read found rate limited, and a rate-limited owner, each on its own route |
| MultiNet.Confinement | multinet.go:152-213 | in every interleaving only joined networks answer, and only for users some call looked up; the home of a user, and every network a data route for the user reached, is one that answered a profile lookup for them |
| MultiNet.NoHomeNoTraffic | multinet.go:240-272 | a user no network answered for, and a request naming no user, cause no data traffic at all |
| MultiNet.RunSettles | multinet.go:177-196 | where answers are truthful, only networks that know a user ever answer for them, and a finished call is served by none only if no network knows the user |
| MultiNet.RaceIndependence | multinet.go:152-196 | if each user is known to at most one network, two runs locate a user in the same network whatever the race order |
| MultiNet.KnownUserIsServed | multinet.go:177-196 | a finished call for a user some network knows was served by a network that knows the user |
| MultiNet.ServedMeansSent | multinet.go:254-272 | a streaming call is served exactly once its route has gone into that network, and nothing else is ever sent |
| MultiNet.HomeIsUsed | multinet.go:152-213 | a remembered home is used without a race, checked by a profile lookup, set when a network is found, forgotten when it no longer knows the user |
| MultiNet.DirectCalls | multinet.go:152-248 | in every run one joined network serves every data call, and with any other number an unrouted call, or one for the empty user, is refused |
| MultiNet.CallsEnd | multinet.go:152-232 | an unfinished call can always take a step of its own, and every such step brings it nearer to its end |
| MultiNet.FirstKnowingExactly | multinet.go:190-195 | the race picks exactly the first positive answer, after any number of negative ones, and nothing exactly when all are negative |
| MultiNet.RaceFindsWhoKnows | multinet.go:177-196 | when every joined network answers, a network that knows the user is found exactly if there is one |
| MultiNet.MultiNode.Locate | multinet.go:152-170 | single network, remembered home, first positive answer, or nothing; keeps homes confined |
| MultiNet.MultiNode.ResolveUser | multinet.go:216-232 | a remembered network that no longer knows the user is forgotten and the race decides anew |
| MultiNet.MultiNode.RequestFor | multinet.go:254-272 | the user's route is streamed into the single, the remembered or the first knowing network, and refused exactly where there is none; all traffic stays confined |
| MultiNet.MultiNode.RequestUnrouted | multinet.go:240-248 | a route that names no user is served only with a single network |
| TweetPolling.PageKeeps | tweetpoller.go:91-107 | a cached id survives a page whose ids fit the cache with those ahead of it, even while the page evicts others, and is not published |
| TweetPolling.SteadyNeverPublished | tweetpoller.go:38-46 | an id that stays in the feed is never published again while consecutive pages fit the cache together and are read within a lifetime |
| TweetPolling.SeededNeverPublished | tweetpoller.go:73-89 | a tweet of the seed page is never published while it stays in the feed |
| TweetPolling.PublishedAtMostOnce | tweetpoller.go:91-107 | from any state a tweet is published at most once while it stays in the feed |
| TweetPolling.FirstPollPublishes | tweetpoller.go:73-77 | the first poll publishes a tweet exactly when the seed did not hold it and it is the owner's, no retweet and has no parent |
| TweetPolling.FailedSeedReplays | tweetpoller.go:109-114 | after a failed seed fetch the first poll publishes a tweet that was in the feed before |
| TweetPolling.OnlyOriginalsArePublished | tweetpoller.go:126-131 | over every run whatever is published stood on a polled page, is the owner's, is no retweet and answers nothing |
| TweetPolling.TweetPoller.SeedFrom | tweetpoller.go:73-82 | the seeding loop fills the seen set and publishes nothing |
| TweetPolling.TweetPoller.PollPage | tweetpoller.go:91-107 | the polling loop is the specification's page step |
| Outbound.CountsTrailingEmpties | outbound.go:310-325 | the count kept for a user is the number of empty successful reads since the last non-empty one |
| Outbound.StopsOnTwoEmpties | outbound.go:306-325 | a federated user is stopped exactly by an empty read following, among successful reads, another empty one |
| Outbound.FailedReadChangesNothing | outbound.go:306-309 | a failed follower read changes nothing |
| Outbound.OneEmptyReadCanStop | outbound.go:72-93 | after a start the first successful read, if empty, stops the user exactly when the last one before was empty, whatever other events lie between |
| Outbound.StoppedByASingleEmptyRead | outbound.go:72-93 | a concrete history in which a user's only empty read since its start stops it |
| Outbound.ReadEmptyTwiceIsStopped | outbound.go:310-325 | a user read empty twice with no other successful read of theirs between is stopped, whatever else happened |
| Outbound.ListedTwiceIsStopped | outbound.go:302-325 | so one scan stops a user it lists twice without followers, wherever they stand |
| Outbound.OneLivePollerPerUser | outbound.go:72-106 | effective starts and stops of a user alternate, and there is exactly one uncancelled context for each federated user |
| Outbound.FederatedExactly | outbound.go:310-325 | over every history a user is federated exactly when, since the last empty read that followed another, there was a Follow or a read that found followers |
| Outbound.FollowersStart | outbound.go:310-313 | a read that finds followers starts the user, whatever came before |
| Outbound.ListedIsStarted | outbound.go:302-313 | so does any unbridged entry of a scan, until an empty read |
| Outbound.ReadsExactly | outbound.go:302-309 | a scan reads the followers of exactly the unbridged users of its pages, in order |
| Outbound.ScanCovers | outbound.go:287-331 | the pages scanned are those up to the first that is empty, repeats its cursor or has none, or up to a failed one or the hundredth |
| Outbound.OutboundFederation.Scan | outbound.go:283-332 | the cursor loop performs exactly the follower reads of the pages served, stopping as the code does |
| Outbound.OutboundFederation.StartUser | outbound.go:72-93 | starting is idempotent and ignores the empty user |
| Outbound.OutboundFederation.StopUser | outbound.go:96-106 | stopping cancels the context the start made |
| FollowPolling.EventsReplayToKnown | outbound.go:156-206 | replaying the announced events on the first resolved set gives the known set; a follow is announced only of an actor outside it, an unfollow only of one inside |
| FollowPolling.EventsExactly | outbound.go:188-204 | exactly which follows and unfollows a round announces |
| FollowPolling.ResolvedExactly | outbound.go:169-182 | a round's set is what its bridged ids resolve to; native users and ids that fail to resolve add nothing |
| FollowPolling.QuietRounds | outbound.go:184-193 | failed rounds and suddenly empty ones announce nothing and change nothing |
| FollowPolling.NoChangeNoEvents | outbound.go:169-204 | ids that resolve to the same set of actors cause no event |
| FollowPolling.UnresolvableIsUnfollowed | outbound.go:177-203 | for any two handles resolving to different actors, a second round that lists both but cannot resolve the first announces exactly an unfollow of its actor |
| FollowPolling.FollowPoller.Poll | outbound.go:156-206 | the loops compute the resolved set and announce one of the allowed event orders |
| Delivery.TokensAreDeliveries | publish.go:82-118 | in every interleaving tokens taken equal deliveries under way and never exceed the capacity |
| Delivery.HoldersNeverWait | inbox.go:102-112 | no token holder ever waits for a token, also when it starts federation: its next step is possible however many are taken |
| Delivery.HolderFinishes | inbox.go:168-201 | a holder left to itself gives its token back after at most five steps of its own, however its actions turn out and whether or not it starts federation |
| Delivery.WaiterGetsToken | publish.go:82-118 | a fan-out waiting for a token can take one now, or once any one holder has been left to finish |
| Delivery.ReturnedMeansSettled | publish.go:82-118 | a returned fan-out has no delivery running; those attempted are a prefix of the followers, all unless cancelled |
| Delivery.AcceptBeforeFollower | inbox.go:168-201 | storing a follower is tried only after its Accept was delivered, and it is announced only after that |
| Delivery.PostedExactly | inbox.go:168-191 | in every run an Accept counts as delivered exactly when a Follow was admitted, its inbox was then resolved, and then posting succeeded |
| Delivery.AcceptEnds | inbox.go:168-201 | an accept left alone ends posted, tried to store and announced, whatever storing gave, if its resolve and its post succeed, and with none of the three otherwise |
| Delivery.ForwardEnds | inbox.go:134-153 | a forwarded activity ends with none of them |
| Delivery.AdmittedEnds | inbox.go:134-191 | an admitted Follow left alone ends delivered, stored and announced exactly when resolving and posting succeed; anything else admitted ends with none of them |
| Delivery.OpenedFor | publish.go:82-90 | a fan-out is always over the followers it was opened for |
| SignedGet.SingleFlight | server.go:791-831 | at most one upstream GET per key runs, and before a later one of the same key the earlier had failed or its cache entry was gone |
| SignedGet.NoCacheNoMemory | server.go:793-824 | with the cache off nothing is remembered and no caller is answered from memory |
| SignedGet.OwnAnswers | server.go:791-831 | a response a caller gets is one upstream gave for its own accept and url |
| SignedGet.NoneMeansFailed | server.go:791-831 | a caller that gets no response had an upstream GET of its own key fail |
| SignedGet.FatesAreEarned | server.go:791-831 | a GET counts as failed only if upstream failed it, and while there is a cache its entry is gone only if it was evicted or expired |
| SignedGet.KeyInjective | server.go:791-831 | keys of space-free accept values never collide |
| SignedGet.SpacesCollide | server.go:791-831 | with spaces in the accept value they do |
| WorkerPool.ScheduleIndependent | mastodon-bridge.go:689-718 | under every schedule the pool returns the order-preserving filter-map of the items, with at most eight workers |
| WorkerPool.SequentialOfOne | mastodon-bridge.go:689-718 | one item adds its rendering if there is one, and nothing otherwise |
| WorkerPool.WrittenOnce | mastodon-bridge.go:1092-1128 | once its worker is through, a slot never changes, filled or empty |
| WorkerPool.NeverStuck | mastodon-map.go:364-393 | no schedule is stuck before the pool returns |
| WorkerPool.SchedulesEnd | mastodon-map.go:364-393 | every schedule ends after at most four steps per item |
| WorkerPool.ApReplies | mastodon-bridge.go:1041-1086 | the page loop is the page walk |
| WorkerPool.WalkBounded | mastodon-bridge.go:1041-1086 | at most fifty replies are returned |
| WorkerPool.WalkIsFirstFifty | mastodon-bridge.go:1041-1086 | where every item renders, they are exactly the first fifty of the pages walked |
| WorkerPool.WalkInPageOrder | mastodon-bridge.go:1041-1086 | in general they are some of the pages' replies, in page order |
| RateLimiting.SinceIsRunStart | rate-limit.go:215-259 | the time remembered is that of the first tick of the current unbroken locked run since the last replacement, remembered exactly when the last tick saw the limiter locked and left it |
| RateLimiting.SwapsExactly | rate-limit.go:224-252 | a tick replaces a limiter exactly when it is locked and its unbroken locked run began a window ago or more |
| RateLimiting.DrainWatches | rate-limit.go:198-213 | over every history of requests, evictions and ticks each limiter is watched by that rule |
| RateLimiting.StepOf | rate-limit.go:215-293 | only ticks replace a limiter, never an unlocked one; requests keep it in place, and unchanged while locked; only its own eviction removes it |
| RateLimiting.SpendLocks | rate-limit.go:275-291 | a served request locks a limiter exactly when it exhausts its budget, a refused one changes none, and nothing else locks one |
| RateLimiting.LockedBySpending | rate-limit.go:265-293 | in every history a locked limiter was locked by a request that exhausted its budget and has stood so since |
| RateLimiting.RecoversInAWindow | rate-limit.go:188-259 | a locked limiter is gone by the first tick a window after the first tick that saw it locked |
| RateLimiting.RecoversInTwoGaps | rate-limit.go:188-259 | with ticks at most a gap apart it is gone less than a window and two gaps after it locked |
| RateLimiting.RateLimiters.Serve | rate-limit.go:265-293 | a request is served exactly if its client, and off the control plane the global limiter, is unlocked |
| RateLimiting.RateLimiters.Client | rate-limit.go:173-186 | an existing limiter is kept, never replaced by a fresh one |
| RateLimiting.RateLimiters.ResetGlobalIfStuck | rate-limit.go:217-229 | the code is the one-limiter rule |
| RateLimiting.RateLimiters.ResetStuckClients | rate-limit.go:234-259 | the loops apply the rule to every client, in any order, and forget the others |
| RateLimiting.RateLimiters.DrainTick | rate-limit.go:208-210 | a tick drains the global limiter and all clients |
| Base64.RawRoundTrip | followers.go:62-84 | decoding inverts unpadded encoding for any bytes, and URL-safe code has no character an id, path or query is cut at |
| Base64.PaddedRoundTrip | mastodon-bridge.go:1270 | decoding inverts padded encoding for any bytes |
| Base64.BadDigitFails | mediaproxy.go:85-93 | one foreign character anywhere makes decoding fail |
| Base64.AlphabetIs | followers.go:62-64 | the digits are those of RFC 4648 in their order, the last two telling the alphabets apart |
| Base64.GroupIsBigEndian | followers.go:62-64 | a group's digits read in base 64 are its bytes read in base 256 |
| MediaRefs.MediaRefRoundTrip | mediaproxy.go:41-54 | a media reference decodes to the pair it was made from exactly when the user id has no separator byte, for any key |
| MediaRefs.MediaRefInjective | mediaproxy.go:41-45 | distinct (user, image) pairs have distinct references, for user ids without the separator byte |
| MediaRefs.DataUrlRoundTrip | mediaproxy.go:83-93 | the proxy recovers type and bytes from what the bridge prints exactly when the type has no comma, and otherwise refuses the file |
| MediaRefs.BareForm | mediaproxy.go:83-92 | the bare form is read the same way, for types without a comma, a data: prefix and a ;base64 suffix |
| MediaRefs.UntypedIsJpeg | mastodon-bridge.go:1260-1271 | an image without a type is read back as a JPEG |
| Percent.EscapeRoundTrip | mastodon-bridge.go:1370 | decoding inverts percent-encoding for any bytes |
| Percent.EscapeIsSafe | inbound.go:187-191 | an encoded value has no slash, question mark, hash, ampersand, equals sign, semicolon or control byte |
| Percent.EncodedAs | mastodon-bridge.go:1370 | how each byte is spelled: itself, a plus, or a percent sign and two capital hexadecimal digits |
| Percent.GetEncoded | notes.go:125-127 | the query printed for a parent gives exactly that parent |
| StatusRefs.TombstoneMatchesReply | mastodon-bridge.go:1345-1410 | the deletion of a reply names the very id the reply federated under exactly when user, id and parent are the same, for replies without an id too |
| StatusRefs.ReplyIdInjective | mastodon-bridge.go:1361-1370 | a printed reply id names one user, one tweet and one parent |
| StatusRefs.ServedMatchesReply | notes.go:142-151 | dereferencing a reply id recovers the parent, and the note is served under that id exactly when the parent is not empty |
| StatusRefs.ReplyIsDereferenced | notes.go:117-152 | a printed reply id is routed to its user and tweet, its query gives the parent, and the note is served under that very id |
| StatusRefs.LocalStatusRoundTrip | inbound.go:187-205 | the text parser returns the user and id a status URL was printed from, with or without a query |
| StatusRefs.OwnStatusRoundTrip | mastodon-bridge.go:899-916 | the URL parser returns them, with or without a query, exactly when neither has a percent sign |
| StatusRefs.ReplyIdRoundTrip | mastodon-bridge.go:1361-1370 | both, on printed reply ids |
| StatusRefs.RoutedRoundTrip | server.go:341-375 | a request for a printed URL is served for the user and id it was printed from exactly when neither has a percent sign |
| StatusRefs.RoutedSound | server.go:341-375 | a path served as a status spells the user, the id, and then nothing or a segment other than the replies |
| StatusRefs.RoutedComplete | server.go:341-375 | every path so spelled is served as that status |
| StatusRefs.StatusPrintedAs | mastodon-bridge.go:1366 | the status URL, spelled out |
| StatusRefs.ReplyPrintedAs | mastodon-bridge.go:1370 | the reply id, spelled out |
| StatusRefs.ReplyCarriesParent | mastodon-bridge.go:1345-1370 | a reply id carries the parent, or without one the root, and reads back as user and id |
| StatusRefs.TombstoneCarriesParent | mastodon-bridge.go:1391-1410 | a tombstone id carries the parent of the deleted reply, or without one the root, and reads back as user and id |
| StatusRefs.ForeignTextIsRefused | inbound.go:187-205 | the text parser accepts a printed status exactly when it is of the very same host |
| StatusRefs.ForeignUrlIsRefused | mastodon-bridge.go:899-916 | the URL parser accepts one exactly when it is of the same host in any case |
| StatusRefs.LocalStatusSound | inbound.go:187-205 | whatever the text parser accepts spells our host, the user and the tweet it returns |
| StatusRefs.BareIs | inbound.go:190-191 | the text parser reads what stands before the first ? or #, and the query ends at the next # |
| StatusRefs.OwnStatusSound | mastodon-bridge.go:899-916 | whatever the URL parser accepts is on our host and its path names the user and the tweet |
| StatusRefs.ActorIdRoundTrip | server.go:1010-1019 | an actor id names its user exactly when the user has no slash |
| Quotes.QuoteFallbackRoundTrip | mastodon-map.go:310-321 | the quote fallback after a comment is split into the URL and the trimmed comment, for any space-free https URL |
| Quotes.BarePrefix | mastodon-map.go:340-353 | a text that is only RE: and a URL is split as a prefix |
| Quotes.SplitREQuoteExactly | mastodon-map.go:310-321 | exactly which texts close with the fallback, and what they split into |
| Quotes.SplitREPrefixExactly | mastodon-map.go:340-353 | exactly which texts open with RE: and a URL, and what they split into |
| Quotes.QuotedNoteUrlExactly | mastodon-map.go:265-276 | the quote property used is the first with an https URL |
| Quotes.LinkUrlExactly | mastodon-map.go:267-270 | a property is a string, or an object whose id comes before its href |
| Quotes.TranslateExactly | inbound.go:90-147 | what any pushed note becomes, its target and a reply's text |
| Quotes.QuoteTextExactly | inbound.go:106-119 | the text of a quote is what is left without its fallback, and the whole text if nothing is |
| Quotes.PlainReply | inbound.go:94-147 | a plain reply to one of our statuses is a reply to it pushed, and stands below it pulled |
| Quotes.ShownExactly | mastodon-map.go:190-234 | what any pulled note answers and quotes |
| Quotes.PushAndPullAgree | inbound.go:90-147 | if what a pulled note quotes or answers is ours, pushing it gives the same class, target and text |
| Quotes.PushAndPullExactly | mastodon-map.go:219-234 | over all notes without a parent, the exact condition on the note under which the two paths agree |
| Quotes.FallbackOfOurs | inbound.go:97-120 | a comment followed by the fallback for one of our statuses is a quote of it on both paths |
| Quotes.ForeignQuoteAnsweringOurs | inbound.go:121-131 | every note without a parent that quotes something foreign and opens with RE: and one of ours is pushed as a reply to ours and pulled as a quote |
| Quotes.ForeignQuoteExample | inbound.go:121-131 | such notes: one quote property, and a text that is only RE: and the URL of one of our statuses |
| FollowerIds.ActorIdRoundTrip | followers.go:59-84 | an encoded actor decodes to its URL, is recognised as bridged, and has no slash |
| FollowerIds.HandlesDoNotDecode | mastodon-bridge.go:184-190 | nothing with an at sign is taken for an encoded actor |
| FollowerIds.HandleCache.RememberHandle | mastodon-bridge.go:297-302 | an entry is added exactly for a non-empty actor and handle; a handle keeps every cached value one |
| FollowerIds.HandleCache.RememberAccountHandle | mastodon-bridge.go:159-165 | so does learning from an account object, which it only does from a full handle |
| FollowerIds.HandleCache.CanonicalHandle | mastodon-bridge.go:234-291 | resolution looks up only opaque actors it has no handle for, returns the handle learned or the naive one, and caches exactly what it learned, always a handle |
| FollowerIds.CanonicalExactly | mastodon-bridge.go:234-270 | an actor is named by its URL unless that is opaque, then by the cache, the account its host names, its document, and failing all by its URL |
| FollowerIds.RestHandleExactly | mastodon-bridge.go:275-291 | a host's account name is a full handle as it is, and else on that host |
| FollowerIds.UsersUrlSpells | inbound.go:250-260 | the usual actor URL spells name@host |
| FollowerIds.AtUrlSpells | inbound.go:250-260 | and so does the profile URL |
| FollowerIds.CanonicalHostExactly | mastodon-map.go:93-98 | every spelling of Threads is one host, and every other host its own |
| FollowerIds.OpaqueExactly | mastodon-map.go:76-87 | a handle is opaque exactly when its local part is a number |
| FollowerIds.UndoMatchesAdd | nodefollowers.go:98-119 | an unfollow removes the id its follow was stored under exactly when resolution answers the same both times, whatever the caches held |
| FollowerIds.StoredIdsAreBridged | nodefollowers.go:141-144 | the id stored is always recognised as bridged |
| FollowerIds.FallbackResolves | mastodon-bridge.go:184-190 | the fallback id leads back to the actor exactly when that is not on this gateway |
| FollowerIds.UnnamedNodeResolves | server.go:671-673 | a gateway without a host name takes no actor for its own |
| FollowerIds.BridgedUserIDIs | inbound.go:239-245 | an account with a handle is known by it, one without by an id that leads back to its URL |
| FollowerIds.StoredIdResolves | mastodon-bridge.go:184-221 | a stored handle resolves by WebFinger and a stored fallback by decoding, never the other way |
| FollowerIds.OwnHandlesAreRefused | mastodon-bridge.go:191-197 | a handle on this gateway never resolves |
| FollowerIds.List | nodefollowers.go:121-160 | the page loop returns the actors of every listed id that resolves, or nothing when a page fails |
| FollowerIds.ListingCovers | nodefollowers.go:121-160 | a listing is the ids of the pages up to the first that is empty, repeats its cursor or has none, or the hundredth, and nothing if a page before that fails |
| FollowerIds.ActorsAre | nodefollowers.go:141-152 | exactly the actors some listed bridged id resolves to are returned |
| FollowerIds.FallbackIsListed | nodefollowers.go:141-152 | a follower stored under the fallback id is never skipped |
| FollowerIds.HandleIsListed | nodefollowers.go:141-152 | nor one stored under a handle WebFinger answers for |
| Directory.CursorRoundTrip | recommendations.go:42-48 | a page ends within 64 bits and its cursor is read back as its end, further on, or refused where the next page would not fit |
| Directory.PagesTile | recommendations.go:34-80 | whatever the limits, the pages of a fixed directory tile it in order, each account once, and paging ends |
| Directory.DecimalRoundTrip | recommendations.go:77 | a number is read back from its decimal text |
| Directory.SuggestedAre | recommendations.go:61-75 | suggestions are without repetition and exactly the suggestible accounts of the page |
| Directory.SuggestibleExactly | recommendations.go:62-71 | an account is suggested exactly when it is live, elsewhere, a full handle and no Warpnet id; a local name is on the directory's host |
| Directory.LimitExactly | recommendations.go:34-37 | a page asks for 40 accounts unless told, and for 80 at most |
| Directory.AnsweredIsAPage | recommendations.go:60-77 | an answer holds no more than the page asked for, exactly the suggestible among the first accounts the directory gave |
| Directory.OffsetExactly | recommendations.go:38-46 | a page starts at 0 without a cursor, else at the number the cursor spells in decimal, and only if it then fits 64 bits |
| Directory.Recommendations.WhoToFollow | recommendations.go:25-81 | the answer, error and cache effect of every request |
| Directory.Recommendations.Candidates | recommendations.go:59-75 | the loop with its seen map is that filter |

## Left out

- HTTP handlers, JSON, libp2p hosts, the DHT, keys and PEM, Tailscale, logging, env parsing: I/O and libraries.
- HTTP signature policy (httpsig.go) and the remote URL guard: settled branch by branch, with the cryptography in a library.
- HTML stripping: texts are what it leaves. Actor and badge rendering, nodeinfo, the log ring: presentational.
- The internals of `ratelimiter.Limit`, and with them the task queue it runs on: a limiter is a locked flag that only spending changes.
- RateLimiting.RateLimiters.Serve: requests share the limiters; checking a limiter and spending on it is one step, so a spend already under way when another request locks the limiter is not modelled.
- RateLimiting.RateLimiters.ResetStuckClients: a tick sees the LRU at one instant; an eviction between the look at a client and its replacement is not modelled.
- NodeClients.NodeClient.OwnerNode: owner and cooldown entries do not expire during one call, and the owner cache is not bounded.
- NodeClients.NodeClient.TryMembers: one call alone; other calls share the object and may change the good list and the cooldowns while this one runs.
- NodeClients.NodeClient.Request: one call alone, as for TryMembers.
- NodeClients.NodeClient.RequestUser: one call alone, as for TryMembers, the owner cache included.
- MultiNet.MultiNode.Locate: the class is one caller alone; interleavings, evictions and stragglers are in the state machine beside it.
- HedgeTiming.SucceedsInTime: goroutines and timers are prompt, so scheduling delays are not counted.
- Outbound.OutboundFederation.Scan: each follower read is an input with the page it belongs to; the reads themselves are `FollowerIds.List`. The pollers a start launches are the other modules.
- StatusRefs.OwnStatusRoundTrip: the URL parser covers scheme, authority, port, path, query and fragment, but not IPv6 literals or the validity of host and credential characters. Request paths that the HTTP router rewrites (dot segments) are not modelled.
- Quotes.QuoteFallbackRoundTrip: white space is ASCII. The code tests the byte before `RE:` as a rune, so inside a multi-byte character it can take a trailing byte for white space.
- Quotes.PushAndPullAgree: the note's content is the same text on both paths; attachments, timestamps and the author fields are not modelled.
- FollowerIds.HandleCache.CanonicalHandle: one resolution alone, though resolutions share the cache; the cache's size and lifetime are an eviction at any moment; WebFinger and REST answers are inputs.
- Directory.PagesTile: the directory does not change between pages and has fewer than 2^64 - 80 accounts.
- Directory.Recommendations.WhoToFollow: the profile built for each account is left out, and the handle cached with it is `FollowerIds.HandleCache.RememberAccountHandle`.
- Likes, boosts and undos in translateInbound: each is one parse of a status URL and one record filled from it.
- buildNote's addressing and attachments: constants and one attachment per image key.
- The follow collection's paging, and the in-memory follower store used without a node.

# rust-socksd: a verified model

rust-socksd is a SOCKS5 and HTTP proxy with rate limiting, access rules, upstream
proxies, and an admin API that can reload its configuration. These Dafny modules model
the parts whose behaviour is decided by the code itself, and prove what those parts are
for. `dafny verify dfyconfig.toml` checks everything.

| modules | models |
|---|---|
| `RateLimit`, `RateHistory`, `RateEviction`, `RateWindow`, `RateClients`, `RateOrder` | the per-client token bucket with eviction of stale buckets |
| `Socks5`, `Socks5Session`, `Socks5Handlers`, `Socks5Misread`, `Socks5Bytes` | both ends of SOCKS5 (RFC 1928, RFC 1929): the byte-level stages, runs of the two ends over two channels, the handlers that read and write a stream, sessions with fields too long for their one-byte lengths, and what either end makes of arbitrary bytes |
| `Networks`, `Policy`, `ProxyUrl`, `Connect` | CIDR entries, access and egress rules, domain rules, proxy URLs, and `connect_to_target` against an arbitrary resolver |
| `HttpReader`, `HttpForward`, `HttpFields`, `HttpTarget`, `HttpConnect`, `HttpAnswers` | the bounded request reader, the forwarder, field lines and the header map, request targets, and the `CONNECT` exchange of this repository's HTTP client with its own server, and what one connection comes to |
| `Lifecycle`, `LifecycleRuns`, `Reload` | two acceptor loops over one semaphore, one limiter and two counters; handlers, logins and reloads over one read-write lock |
| `TokenStore`, `LdapEscape` | admin tokens, and the LDAP filter escape |
| `Wrappers`, `Addresses`, `Text`, `TextLemmas` | options and results, addresses, and the string operations used above |

## Form

Code that updates state in place is a class or a method with loops (`RateLimiter`,
`TokenStore`, `Net`, the two `Stream` classes, the SOCKS5 handlers, the request reader,
the rule loops), each proved equal to a specification function; the lemmas are about
those functions. The two modules about concurrency are state machines: a run is a
sequence of steps, and `Play` gives the state after it.

Two definitions are independent of the code and exist to be compared with it:
`RateHistory.FitsEverySuffix` (a statement about the whole admission history) against the
stored bucket, and `RateEviction.SoloAnswers` (clients whose buckets are never evicted)
against the limiter. Likewise the bits of an address against the mask test, dot-separated
labels against the suffix test, the latest issue of a token against the token map, the
last field line of each name against the header map, and a per-character escape against
the five replacements.

## Assumptions

- Rates and tokens are exact: time is in nanoseconds and a token is 60,000,000,000
  units, so that a bucket gains `requests_per_minute` units a nanosecond. The program
  uses `f64`.
- The limiter reads the clock before it takes its lock (src/ratelimit.rs:37-38), so
  times may step back in lock order. `check` is modelled for any times; theorems that
  need times in order say so, and `RateWindow.StretchBound`, `RateWindow.BackstepBound`
  and `Lifecycle.BothListenersAreLimited` do not.
- Text is ASCII for case mapping and white space. The parsing of address text, UTF-8
  validity, base64, name lookup, the connecting of sockets and the deciding of passwords are
  arbitrary functions, or step outcomes; base64 is only assumed to decode what it encoded
  and to produce no `:` and no white space.
- A closed SOCKS5 connection delivers the bytes written before it was closed.
- No task panics, so a permit is always dropped after its handler.
- Any enabled step may come next: schedulers, locks and the semaphore are not assumed to be fair.

## Where the code and its documentation differ

The model follows the code.

- An empty `allowed_networks` admits every client (src/upstream.rs:69-76);
  doc/configuration.md:74 and doc/configuration.md:105 say that it rejects all.
- doc/configuration.md:150 says that `*` in the exclusion networks or domains bypasses
  the upstream proxy. The code knows `*` only in `NO_PROXY` (src/upstream.rs:142-154);
  `Policy.StarIsNotAWildcard` shows both.

## Results that hold only on a condition

- Evicting stale buckets cannot be observed exactly when
  `10 * requests_per_minute >= max(burst_size, 1)`
  (`RateEviction.EvictionIsInvisibleExactlyWhen`); for any slower setting the proof
  builds the run that tells. The same condition decides whether denied checks can be
  left out (`RateEviction.DeniedChecksDoNotMatterExactlyWhen`). For all settings,
  `RateWindow.WindowBound` says how much eviction can add.
- The SOCKS5 client cuts lengths to one byte (src/upstream.rs:386-389, src/upstream.rs:421).
  A session that the server would grant agrees in every run exactly when no field that is
  sent is longer than 255 bytes (`Socks5Misread.AgreesExactlyWhenShort`,
  `Socks5Misread.AllAgreeExactlyWhenShort`). With a longer name, if the part that its
  length byte covers is well-formed text and the server connects to it, the client returns
  Ok for a tunnel to that other target (`Socks5Misread.LongNameGoesElsewhere`). With longer
  credentials it can go either way: `Socks5Misread.LongLoginCanBeMisread` gives ones that
  are read as another login and another request, and
  `Socks5Misread.PlainLongLoginIsRefused` says which are always refused. So "Ok means the
  client's own target and login" holds for every server exactly when neither the name nor
  the credentials can be misread in these ways (`Socks5Misread.OkMeansOwnExactlyWhen`).
- The HTTP client writes its host into the request as it is (src/upstream.rs:469-472). The
  server opens the client's own target exactly when the host holds neither a colon nor
  white space, the server admits the login, and the target connects
  (`HttpConnect.ConnectAgrees`). A host with a colon, such as an IPv6 address, is refused
  at both ends. A host with white space can name another target, and then the client
  returns Ok for that one (`HttpConnect.HostTextMisdirects`);
  `HttpConnect.OkMeansOwnExactlyWhen` says exactly for which hosts this cannot happen. A
  user name with a colon is read back cut at it (`HttpConnect.LoginReadsBack`).
- The answer to a request that is not a CONNECT is its target's own and may read like that
  to a CONNECT (`HttpConnect.AnswerTellsExactlyWhen`); this client only ever writes a
  CONNECT (`HttpConnect.RequestIsSeen`).
- The header map holds one value for each name, so of field lines that share a name all but
  the last are lost in forwarding (`HttpFields.ForwardingKeepsFieldsExactlyWhen`).

## Model

| member | source | states |
|---|---|---|
| RateLimit.RateLimiter.constructor | src/ratelimit.rs:26-33 | a new limiter holds no bucket |
| RateLimit.RateLimiter.CheckClient | src/ratelimit.rs:36-61 | the answer and the whole new map for any clock reading: eviction above 10,000 entries, refill, and one token spent when there is one |
| RateLimit.StateIsSane | src/ratelimit.rs:52-60 | after any run, even with times out of order, every bucket holds between zero tokens and a full burst |
| RateHistory.HeadroomIsLeast | src/ratelimit.rs:52-54 | the closed form of the token count is the least of burst and, for each past admission, burst plus refill since it less the admissions from it on |
| RateHistory.TokensAreHeadroom | src/ratelimit.rs:52-60 | the refilled tokens equal that closed form over the whole admission history |
| RateHistory.BucketIsExact | src/ratelimit.rs:52-60 | a check is admitted if and only if, for every past admission, those from it through this one fit burst plus rate times the time since |
| RateHistory.StateIsSolo | src/ratelimit.rs:40-60 | a client's stored bucket depends only on its own checks since its bucket was created |
| RateHistory.LimiterIsExact | src/ratelimit.rs:36-61 | the same two statements for the limiter with all its clients and evictions, over any run in time order |
| RateEviction.EvictionIsInvisible | src/ratelimit.rs:40-50 | when idle buckets refill within 600 seconds, every run in time order answers as if each client had a bucket that is never evicted |
| RateEviction.EvictionIsInvisibleExactlyWhen | src/ratelimit.rs:40-50 | eviction is invisible on all runs if and only if ten times the rate per minute reaches the burst |
| RateEviction.DeniedChecksDoNotMatter | src/ratelimit.rs:36-61 | under the same condition, deleting every denied check from the past changes no answer |
| RateEviction.DeniedChecksDoNotMatterExactlyWhen | src/ratelimit.rs:36-61 | and if and only if it holds: in slower settings a denied check can keep a bucket from eviction |
| RateClients.FewClientsAreIndependent | src/ratelimit.rs:42-44 | with at most 10,000 clients, for all settings and any order of times, each client is answered as if it had the limiter for itself |
| RateClients.EvictionShowsExactlyWhen | src/ratelimit.rs:42-44 | eviction can be observed among n clients if and only if n is above 10,000 and ten times the rate per minute is below the burst |
| RateWindow.ForwardIsNetPlusBackward | src/ratelimit.rs:37-54 | the time that counts for refill is the time passed plus all backward steps of the clock readings |
| RateWindow.StaysWithin | src/ratelimit.rs:36-61 | what one client was admitted in a stretch is paid for by its allowance at every point, evictions and backward steps included |
| RateWindow.StretchBound | src/ratelimit.rs:36-61 | admissions of one client in any stretch of any run are bounded by burst for each started 600 seconds plus the refill, for all settings and any order of times |
| RateWindow.WindowBound | src/ratelimit.rs:36-61 | in time order, over a window of length T: at most burst * (1 + T / 600 s) + rate * T |
| RateWindow.BackstepBound | src/ratelimit.rs:37-60 | a bucket that survives, with readings that go back by D in all, admits at most burst + rate * (T + D) |
| RateOrder.AnyOrderIsExact | src/ratelimit.rs:37-60 | for readings in any order, a surviving bucket admits if and only if no suffix of its admissions is overdrawn, each dated by the forward steps up to it |
| RateOrder.LimiterIsExactInAnyOrder | src/ratelimit.rs:36-61 | the same for the limiter with all its clients and evictions |
| Socks5Session.PlayInv | src/socks5.rs:142-335 | in every reachable state of client and server over two channels, both ends and both channels hold exactly the remaining parts of one agreed conversation |
| Socks5Session.NotBothWaiting | src/upstream.rs:357-460 | client and server never both wait on empty channels |
| Socks5Session.Progress | src/socks5.rs:142-335 | a run that is not over has a next step |
| Socks5Session.MeasureDrops | src/socks5.rs:142-335 | each step, also with oversized fields, lowers a measure that cannot fall forever |
| Socks5Session.RunsEnd | src/socks5.rs:142-335 | the number of steps of any run is bounded by the measure at the start |
| Socks5Session.SessionAgrees | src/upstream.rs:357-460 | for all segmentations, when the fields that this server gets to see have at most 255 bytes: no deadlock; the client succeeds if and only if authentication passes and the connect succeeds; the server saw exactly the client's login, host and port; when both succeeded both channels are empty, so the tunnel starts at the right byte |
| Socks5Session.ServerSeesShort | src/socks5.rs:196-303 | whatever the client, each name and login the server reads has at most 255 bytes |
| Socks5Session.LongFieldsNeverArrive | src/upstream.rs:382-424 | with a host or login over 255 bytes no server opens the tunnel that was asked for |
| Socks5Misread.OkMeansUnderstood | src/upstream.rs:357-460 | for every server, client and run: if the client returned Ok, the server has a tunnel to the target, under the login, that a reader of the client's bytes finds in them, it granted both, and it asked for a login only from a client that has one |
| Socks5Misread.OkExactlyWhen | src/upstream.rs:357-460 | and every such target and login is reached: some run ends with the client's Ok and this tunnel if and only if this is what is read and the server grants it |
| Socks5Misread.OkMeansOwnExactlyWhen | src/upstream.rs:382-424 | for every server, an Ok means the client's own target and login, if and only if its name and its credentials cannot be misread; ones of at most 255 bytes never are |
| Socks5Misread.LongNameGoesElsewhere | src/upstream.rs:420-423 | a name over 255 bytes whose covered part is well-formed: a run exists in which the client returns Ok, the server's tunnel goes to that part with the next two bytes as port, and the rest of the name is left over for the tunnel |
| Socks5Misread.LongLoginCanBeMisread | src/upstream.rs:386-389 | credentials over 255 bytes that are read as another login and a request |
| Socks5Misread.PlainLongLoginIsRefused | src/upstream.rs:386-389 | credentials over 255 bytes without the byte 5 are never misread |
| Socks5Misread.AgreesExactlyWhenShort | src/upstream.rs:357-460 | a session that the server would grant agrees in every run if and only if no field sent is over 255 bytes |
| Socks5Misread.AllAgreeExactlyWhenShort | src/upstream.rs:357-460 | all servers agree with a client in all runs if and only if its name and its credentials have at most 255 bytes |
| Socks5Handlers.HandleUserPassAuth | src/socks5.rs:196-251 | reading into one reused buffer consumes and writes exactly what the login stages say; a login given out is the one on the stream, all of it was consumed, and the backend accepts it |
| Socks5Handlers.HandleHandshake | src/socks5.rs:142-194 | the same for the greeting and the choice of method; on success there is a login exactly when one is required, it is the one on the stream and the backend accepts it |
| Socks5Handlers.SendResponse | src/socks5.rs:305-335 | appends exactly the encoded reply |
| Socks5Handlers.HandleRequest | src/socks5.rs:253-303 | the same for the request: consumed bytes, written reply and outcome are those of the stages |
| Socks5Handlers.HandleConnection | src/server.rs:330-361 | on any input, the connection's outcome, output and unread rest are those of the staged server |
| Socks5Handlers.ReadReply | src/upstream.rs:429-459 | the client's reading of the reply consumes exactly one reply, or fails as the stages do |
| Socks5Handlers.ConnectHandshake | src/upstream.rs:357-460 | on any answers, the client's result, output and unread rest are those of the staged client |
| Socks5Handlers.ServerReadsClient | src/socks5.rs:142-303 | given the client's messages followed by any bytes, the server reads back login and target, writes its three answers, and leaves exactly the bytes that follow |
| Socks5Handlers.ServeIsSafe | src/socks5.rs:142-335 | from every safe stage and on any bytes the server ends safely |
| Socks5Handlers.NoTunnelWithoutLogin | src/socks5.rs:142-251 | on any bytes: a tunnel implies the CONNECT command, a successful connect, and accepted credentials when authentication is required |
| Socks5Handlers.ReplyRoundTrip | src/socks5.rs:305-335 | a decoder written from RFC 1928 section 6 recovers every reply and the bytes after it |
| Socks5Bytes.GreetingIsAnswered | src/socks5.rs:142-194 | for every input: which greetings are answered, by the bytes 5 0, 5 2 or 5 255, and what the rest is read as |
| Socks5Bytes.LoginIsAnswered | src/socks5.rs:196-251 | a complete login is let in, with 1 0, if and only if there is a backend and it answers yes; no backend, a refusal and an error all get 1 1 and the end |
| Socks5Bytes.RequestIsAnswered | src/socks5.rs:253-335 | for every command, reserved and type byte: commands 2 and 3 get code 7, all others connect; types 1 and 4 are addresses, all others names; the port is big-endian; each outcome has its reply, byte by byte |
| Socks5Bytes.OtherVersionsGetNothing | src/socks5.rs:196-275 | a login or request of another version, or cut short, gets no answer |
| Socks5Bytes.ClientIsDecided | src/upstream.rs:357-460 | for every answer: when the client returns Ok, and what it says when |
| Networks.AndIsBitwise | src/upstream.rs:45-61 | the model's `&` is the bitwise one |
| Networks.MaskTestIsQuotient | src/upstream.rs:45-61 | the mask test equals equality of quotients by 2 to the width less the prefix, at any width |
| Networks.BlockIsQuotient | src/upstream.rs:18-67 | the same for IPv4 and IPv6 entries, and the families never match each other |
| Networks.HostIsFullBlock | src/upstream.rs:20-28 | a bare address is the block of full length |
| Networks.NestedOrDisjoint | src/upstream.rs:18-67 | two valid blocks are nested or disjoint |
| Networks.CoversExactly | src/upstream.rs:18-67 | the check on prefix lengths and bases is exactly inclusion of blocks |
| Networks.EntryIsRead | src/upstream.rs:18-67 | what each text of an entry matches: one address without a slash, a block by quotient with a length that fits, nothing otherwise; anything after a second slash is ignored |
| Policy.CheckEgressRules | src/upstream.rs:92-115 | the two loops decide exactly: in no blocked entry, and in some allowed one if there are any |
| Policy.IngressExactly | src/upstream.rs:72-78 | a client is admitted if and only if there are no entries or one of them, read as an address or a block, has it |
| Policy.EgressExactly | src/upstream.rs:92-115 | an address is refused if and only if a blocked entry has it, or there are allowed entries and none has it |
| Policy.MoreEntries | src/upstream.rs:72-115 | more allowed networks never shut an admitted client out; more blocked entries never let an address through; allowed entries do not overrule blocked ones |
| Policy.CleanedIsExact | src/upstream.rs:82-84 | entries lose all dots in front and the case of their letters |
| Policy.OrderDoesNotMatter | src/upstream.rs:69-115 | egress and ingress decisions depend only on which entries are present |
| Policy.CoveredEntriesAreRedundant | src/upstream.rs:69-115 | removing an entry covered by another of the same list changes no decision for any address |
| Policy.MatchIsLabelSuffix | src/upstream.rs:82-90 | the suffix test holds if and only if the entry's labels are the last labels of the host |
| Policy.SubdomainsAreBlocked | src/upstream.rs:80-90 | every subdomain of a blocked host is blocked |
| Policy.BlockedIsLabelSuffix | src/upstream.rs:80-90 | a host is blocked if and only if some non-empty entry's labels end it |
| Policy.IsExcluded | src/upstream.rs:117-176 | the loops with their early returns equal the order-independent union of the conditions of the three lists |
| Policy.ExcludedExactly | src/upstream.rs:117-176 | a target is excluded if and only if a network or NO_PROXY entry has its address, the labels of a domain or NO_PROXY entry end its own, or NO_PROXY holds `*` |
| Policy.StarIsNotAWildcard | src/upstream.rs:117-176 | `*` excludes everything in NO_PROXY and only itself, as a label, in the configured lists |
| ProxyUrl.UrlRoundTrip | src/upstream.rs:191-250 | parsing a rendered URL gives back scheme, user, password, host and port, with the default port of the protocol |
| ProxyUrl.PortTextDecides | src/upstream.rs:191-250 | for any text in the place of the port: none is the default, a number below 65536 itself, and anything else makes the URL unreadable |
| ProxyUrl.OpenBracketIsUnreadable | src/upstream.rs:191-250 | so does a bracket that is not closed |
| Connect.UpstreamIsFirstCandidate | src/upstream.rs:283-329 | the upstream proxy is none for an excluded target and else the first candidate there is, in the order `prefer_env` chooses |
| Connect.EnvProxyExactly | src/upstream.rs:252-281 | the environment's proxy is that of the first readable variable, in the order named for SOCKS5, port 443 and other requests |
| Connect.ConfiguredExactly | src/upstream.rs:304-320 | the configured proxy is there if and only if it is enabled and complete, and is what is configured |
| Connect.NoProxyExactly | src/upstream.rs:178-189 | the NO_PROXY list, or else the no_proxy list, holds exactly the trimmed nonempty pieces between commas and spaces |
| Connect.Net.ConnectStream | src/upstream.rs:331-355 | which sockets are tried, and after which lookup |
| Connect.Net.ResolveTarget | src/upstream.rs:526-552 | addresses found and the one lookup made, or none |
| Connect.CheckResolved | src/upstream.rs:554-565 | the loop objects exactly when nothing was resolved or some address is refused, and names the first |
| Connect.Net.Route | src/upstream.rs:567-611 | result and all lookups and connects made, proxied or direct |
| Connect.Net.Negotiate | src/upstream.rs:579-600 | the handshake made with a proxy: its protocol, the caller's target, the proxy's credentials |
| Connect.Net.ConnectToTarget | src/upstream.rs:514-612 | result and complete log of lookups and connects equal the specification, for every world |
| Connect.RefusedOpensNothing | src/upstream.rs:514-565 | no socket is opened on any path for a blocked domain, nor, when there are egress rules, when nothing was resolved or any resolved address is refused |
| Connect.DirectOpensChecked | src/upstream.rs:514-611 | with egress rules, a direct socket is opened if and only if nothing objects, to the first of the one resolved set, with no second lookup |
| Connect.EveryOpenIsChecked | src/upstream.rs:514-611 | with egress rules, behind every socket, to a proxy too, stands an unblocked domain and a resolved set whose every address passed |
| Connect.AttemptIsMeant | src/upstream.rs:514-611 | every attempt that its checks do not refuse opens one socket, unless a name cannot be resolved: to the chosen proxy's host and port, or to the first checked address, or to the caller's host, at the caller's port; it succeeds if and only if the socket opens and a proxy, asked for the caller's target under its own credentials, agrees |
| Connect.LookupIsNeeded | src/upstream.rs:526-552 | the target is looked up first if and only if it is a name and there are egress rules or exclusions that look like networks |
| HttpReader.Stream.ReadLine | src/http_proxy.rs:103-112 | takes from the front of the stream nothing after a line feed, and not less than a whole line unless the stream or the cap ends it; leaves exactly the rest, and says how much of the cap remains |
| HttpReader.LineIsLimitedLine | src/http_proxy.rs:103-112 | exactly one text is such a line, the first line of the capped stream |
| HttpReader.HandleRequest | src/http_proxy.rs:93-166 | the reading loop gives the specified request or error and stops at the specified byte |
| HttpReader.HeadersUnderLimit | src/http_proxy.rs:131-157 | the capped header loop equals the uncapped one if that stays below the cap, and refuses otherwise |
| HttpReader.LimitOnlyRejects | src/http_proxy.rs:97-166 | the limit never changes an accepted request: identical when the limit exceeds the bytes needed, an error otherwise |
| HttpReader.AcceptedStopsWell | src/http_proxy.rs:97-166 | acceptance uses fewer bytes than the limit and ends just after the first blank line or, if there is none, at the end of the stream |
| HttpForward.RenderRequest | src/http_proxy.rs:290-297 | the forwarder's loop writes exactly the request without the two proxy headers, in any order of the map |
| HttpForward.ParsedIsNormal | src/http_proxy.rs:105-166 | every parsed request has three words and trimmed, lower-case, colon-free header names with trimmed one-line values |
| HttpForward.RenderedReadsBack | src/http_proxy.rs:290-297 | rendering then reading a normal request followed by any bytes gives the same request less the two headers and stops exactly at those bytes |
| HttpForward.ForwardingPreserves | src/http_proxy.rs:261-304 | for every accepted stream and every map order, the next reader sees the same method, URI, version and header map less the two proxy headers |
| HttpFields.HeadersAreLastFields | src/http_proxy.rs:131-157 | a name is in the header map if and only if a line before the first blank one gives it, and its value is that of the last such line; lines are the text cut at its line feeds |
| HttpFields.ForwardingKeepsFieldsExactlyWhen | src/http_proxy.rs:261-304 | the field lines that the next hop reads are those sent, less the two proxy headers and each as often as it was sent, if and only if no forwarded name was sent twice |
| HttpTarget.UriRoundTrip | src/http_proxy.rs:44-70 | host and port of a rendered absolute URI are read back, with the default port of its scheme |
| HttpTarget.PortTextDecides | src/http_proxy.rs:44-70 | for any text in the place of the port and anything behind it: the target, or none |
| HttpTarget.NoHostNoTarget | src/http_proxy.rs:44-70 | without a host there is no target |
| HttpConnect.ReadAnswer | src/upstream.rs:484-511 | the client's reading loop accepts exactly the answers with an HTTP status line of status 200 |
| HttpConnect.ConnectIsInAnyCase | src/http_proxy.rs:19-21 | a method is CONNECT if and only if its lower-case form is connect |
| HttpConnect.ServerReadsRequest | src/upstream.rs:469-482 | the server's reader recovers method, target and headers of the client's request and consumes all of it, if and only if the host holds no white space |
| HttpConnect.TargetReadsBack | src/http_proxy.rs:31-42 | its CONNECT target gives the client's host and port if and only if the host holds no colon, and nothing otherwise |
| HttpConnect.LoginReadsBack | src/http_proxy.rs:168-222 | its header gives the credentials cut at their first colon, which is the client's user and password if and only if the user holds no colon |
| HttpConnect.StatusDecides | src/upstream.rs:488-500 | a status line of any version opens the tunnel if and only if its status is 200, and a line that does not begin with HTTP/ never does |
| HttpConnect.AnswerMatchesTunnel | src/http_proxy.rs:224-304 | on any input the client takes the server's answer for an open tunnel if and only if the server opened one, and then to a host without colon or white space, or a forwarded request's target answers like that itself |
| HttpConnect.AnswerTellsExactlyWhen | src/http_proxy.rs:224-304 | for every server the answer tells whether there is a tunnel, if and only if the input is refused by the reader, has a method that is CONNECT in any case, or names no target to forward to |
| HttpConnect.RequestIsSeen | src/upstream.rs:469-472 | whatever the host, a request that the reader accepts from this client is a CONNECT, for the target that the words and the first line feed of the host name |
| HttpConnect.ConnectAgrees | src/http_proxy.rs:224-259 | for every client within the limit: the server opens the client's own host and port if and only if the host holds no colon and no white space, the login is admitted and the connect succeeds; without white space it opens this or nothing; the client returns Ok if and only if a tunnel was opened |
| HttpConnect.OkMeansOwnExactlyWhen | src/upstream.rs:469-472 | for every server, an Ok means the client's own target, if and only if the host names no other one: by two words before its first line feed, the first a name, a colon and a port; or, without a line feed, by white space in front of a good host |
| HttpConnect.HostTextMisdirects | src/upstream.rs:469-472 | a host that spells the end of a request line: the tunnel goes to the target before it and the client returns Ok |
| HttpAnswers.AdmittedExactly | src/http_proxy.rs:168-222 | a request is admitted if and only if authentication is off, or it carries Basic credentials, cut at their first colon, and there is a backend that answers yes to them |
| HttpAnswers.ConnectTargetExactly | src/http_proxy.rs:31-42 | the target of a CONNECT is what stands before and after its only colon, the latter a number below 65536 |
| HttpAnswers.ConnectionExactly | src/server.rs:409-434 | every input: 407 for a request that is not admitted; a tunnel and 200, 403 or 502 for one whose lower-case method is connect; the target's own answer and no tunnel, 403 or 502 for any other; nothing where the reader or the target fails |
| HttpAnswers.ConnectIgnoresOrigin | src/server.rs:409-434 | a CONNECT never gets the answer of an origin |
| HttpAnswers.ErrorEnds | src/http_proxy.rs:328-344 | an error answer ends with its message, of the length it announces |
| Lifecycle.PermitsAndCounters | src/server.rs:198-328 | in every interleaving: free plus held permits is the maximum; active connections never exceed held permits; total is active plus ended whenever no acceptor is between the two counter updates |
| Lifecycle.TotalNeverFalls | src/server.rs:198-328 | the total never falls over any continuation |
| Lifecycle.OneTokenEach | src/server.rs:171-196 | the connections past the limiter, over both listeners, are exactly the limiter's admissions for that client |
| Lifecycle.BothListenersAreLimited | src/server.rs:171-328 | over any stretch of any interleaving: connections started by one client on both listeners together, beyond the at most two in hand before, stay within one allowance; the clock's backward steps are at most the time passed and at most the time spent waiting for the lock |
| Lifecycle.OverallBound | src/server.rs:171-328 | hence they are bounded by the allowance of twice the time passed, whatever the scheduling |
| Lifecycle.WholeRunBound | src/server.rs:171-328 | and for a whole run, all connections of one client by the allowance of twice its duration |
| LifecycleRuns.ScreenedExactly | src/server.rs:173-196 | in every run, the limiter's calls for a client, made or about to be made, are exactly its screenings that passed; without a limiter its connections are |
| LifecycleRuns.ScreenDecides | src/server.rs:181-186 | a screening passes if and only if there are no entries or one of them has the client; a client that does not pass is dropped |
| LifecycleRuns.ConnectionExactly | src/server.rs:198-260 | an acceptor's uninterrupted run: dropped at the screening, dropped at the limiter, or started with one permit, counted once in each counter |
| LifecycleRuns.UnlimitedExactly | src/server.rs:198-260 | the same without a limiter |
| LifecycleRuns.ConnectionEnds | src/server.rs:232-254 | an ended connection leaves the active count and gives its permit back |
| LifecycleRuns.AcceptorGoesOn | src/server.rs:198-328 | an acceptor is only ever stuck while all permits are held |
| Reload.BindFieldsNeverChange | src/admin.rs:380-404 | in every interleaving of reloads, logins and handlers the five bind fields stay those at the start, though each reload checks a stale snapshot |
| Reload.OneWriteIsSeen | src/server.rs:235-238 | every handler and login works with a configuration and authenticator installed by one and the same write; if the first configuration meets the rule on authentication, so that authentication enabled implies the matching authenticator |
| Reload.LiveStateIsMatched | src/admin.rs:395-404 | the same for the live state whenever nobody is writing it, which then meets the rule on authentication |
| Reload.TokensAreJustified | src/admin.rs:280-318 | each issued token is owed to one installed write whose authenticator accepted the password and whose configuration names the user an administrator |
| Reload.RuleExactly | src/config.rs:264-300 | authentication may be enabled if and only if a backend is configured and its settings are not empty |
| Reload.HandlerExactly | src/server.rs:235-238 | a handler that finds the lock free works with the live configuration and authenticator |
| Reload.LoginExactly | src/admin.rs:268-318 | a login issues exactly one token to an administrator whom the live authenticator accepts, none to anybody else, and changes nothing else |
| Reload.ReloadExactly | src/admin.rs:380-404 | a reload installs what the file holds and its new authenticator, both live and recorded last, if and only if the file is readable and meets the rule, keeps the five bind fields, and the authenticator can be built; otherwise all stays as it is |
| Reload.SomeTaskCanGoOn | src/admin.rs:380-404 | while some task is not over, some task can go on |
| TokenStore.TokenStore.constructor | src/admin.rs:34-39 | a new store is empty and keeps its time to live |
| TokenStore.TokenStore.GenerateToken | src/admin.rs:41-54 | the token given out, and the whole new map |
| TokenStore.TokenStore.ValidateToken | src/admin.rs:56-62 | the answer and the whole new map; every entry may be tested at its own, later clock reading |
| TokenStore.TokenStore.AuthenticateRequest | src/admin.rs:202-228 | accepted if and only if the bearer token is the static one or valid, and the map is touched only when the store was asked |
| TokenStore.Bearer | src/admin.rs:206-212 | the token of a header is what follows the exact prefix, and anything else has none |
| TokenStore.StoreIsLatest | src/admin.rs:41-62 | the map holds a token only as its latest issue, and one that is missing though issued has expired at some cleanup |
| TokenStore.ValidationIsExact | src/admin.rs:56-62 | validation gives user u if and only if the token's latest issue was for u and is younger than the time to live |
| TokenStore.CleanupIsInvisible | src/admin.rs:56-62 | no earlier validation, with its cleanup, changes an answer |
| TokenStore.ExpiredStaysExpired | src/admin.rs:56-62 | a token once refused stays refused until it is issued again |
| LdapEscape.SequentialIsSimultaneous | src/auth/ldap.rs:33-39 | the five replacements in a row equal one escape of each character |
| LdapEscape.EscapeRoundTrip | src/auth/ldap.rs:33-39 | the unescaping of RFC 4515 section 3 gives back every string |
| LdapEscape.EscapeIsInjective | src/auth/ldap.rs:33-39 | different values never escape to the same text |
| LdapEscape.EscapedIsInert | src/auth/ldap.rs:33-39 | no bare `*`, `(`, `)` or NUL is left, and every backslash starts one of the five codes |

## Left out

- RateLimit.RateLimiter.CheckClient: tokens are exact integers; the rounding of `f64` is not modelled.
- Socks5Session.SessionAgrees: timeouts and broken connections are not moves of a run; the handlers cover short input.
- HttpConnect.ConnectAgrees: alignment of the tunnel after a CONNECT is not claimed, since `into_inner` drops what was buffered (src/server.rs:427, src/upstream.rs:511).
- ProxyUrl.UrlRoundTrip: an address without a scheme is covered only if it does not itself begin with one.
- Lifecycle.PermitsAndCounters: counters are unbounded; the wrap-around of a 64-bit `total_connections` is not modelled.
- Reload.TokensAreJustified: `expires_in` of a login reply comes from the new configuration while the store keeps its first time to live; no agreement is claimed.
- Text beyond ASCII: UTF-8 decoding errors of the HTTP reader, Unicode case mapping and Unicode white space.
- The text of addresses: parsing is a parameter, and printing an address for the next hop is not modelled.
- The bytes of a proxy handshake inside `connect_to_target`: one event there; `Socks5Session` and `HttpConnect` model them.
- The copying of bytes through an open tunnel, its byte counters and timeouts.
- The body of a forwarded request; the answer to it is an arbitrary text.
- Password hashes, PAM, SQL queries and the LDAP bind and search: what a backend accepts is arbitrary.
- `Config::validate` apart from its clause on authentication; YAML, command line and environment overrides.
- User management, masking of the configuration, health and metrics texts of the admin API.
- The admin API's own HTTP reader and router.
- Failed `accept` calls, which only delay an acceptor, and shutdown.
- Packaging and deployment scripts.

# explorer-bff core, modelled in Dafny

This project models the core logic of the Decentraland explorer BFF. The
BFF is the backend a world explorer connects to. The model covers:

- **Relay routing tables** (`Routing`, routing.dfy). A recursive
  depth-first search computes, for every ordered pair of peers of a mesh,
  either a list of relaying peers or `server`. It memoises each route and
  its reverse in one shared map of tables. The model also covers the
  demonstration's `generateKey` and `processRoute`.
- **RPC authentication and the session registry** (`RpcAuth`,
  rpc_auth.dfy). This covers:
  - the per-connection challenge;
  - the signed-challenge check and its failure paths;
  - the registry of sessions keyed by the normalised address;
  - eviction (the "kick") of an address's previous session;
  - the one-shot port-close handlers.
- **Topic salting** (`Comms`, comms.dfy) and the **in-process message
  broker** with its `*`-per-segment subject matching (`MessageBroker`,
  broker.dfy).
- **Prim's minimum spanning tree** and the random test graph (`Prim`,
  prim.dfy). These run over arrays: `array<nat>`, `array<bool>` and
  `array2<nat>`.
- **Service discovery** (`ServiceDiscovery`, discovery.dfy). This is the
  status table, its last-update table, and the health-check sweep.
- **The status caches** of both status components, with their five-minute
  time-to-live (`StatusCache`, `PortsStatus`, `AdaptersStatus`), and the
  lambdas `/health` mapping.
- **Realm-name selection** (`CatalystNames`, `PortsRealm`,
  `AdaptersRealm`). The order of preference is:
  1. the stored name;
  2. the lighthouse name;
  3. the first candidate from `REALM_NAMES` or the default names that no
     catalyst reports.

  This part also models catalyst-domain normalisation and the name-file
  path.
- **The `/about` handler** (`About`, about.dfy). It combines the health
  flags and chooses the status code. It uses the adapters' realm
  component, as src/components.ts:14 and src/components.ts:58 wire it.

`Js` (js.dfy) gives the small slice of JavaScript the core relies on:
- values;
- property access that throws on `null` and `undefined`;
- truthiness and `&&`;
- `split`, `join`, `trim` and `startsWith`.

`Wrappers` (wrappers.dfy) holds `Option` and `Result`.

The outside world is passed in as parameters. Each of these is a plain
function or value:
- fetched JSON bodies (`fetchJson: string -> Option<Value>`, where `None`
  means the request or the decoding failed);
- the clock (`now`);
- the random draws (the challenge suffix and the coin flips of the random
  graph);
- file contents and whether a write succeeds;
- the catalysts' registered domains;
- the cluster status;
- address validation, address normalisation, auth-chain parsing and
  signature validation.

Timers and events are explicit method calls:
- the port's `close` event is `OnPortClose`;
- the interval sweep is `HealthCheck`;
- a scheduled close is recorded as a flag.

Two behaviours are kept as the code has them:
- The `/about` handler asks the realm for its name with `COMMS_PROTOCOL` as
  the lighthouse name (about-handler.ts:39). With no stored name, the
  protocol string (for example `v3`) is therefore adopted and stored as the
  realm name. `About.AboutHandler` states this.
- In `getName`, an empty candidate from `REALM_NAMES` can be picked. When
  every candidate is taken, the name the component held before is
  returned. That name is `undefined`, or an empty name read from the file.

The routing memo ignores the exclusion list of the search that filled it.
A stored route is therefore a walk through the mesh, but it is not claimed
to be a shortest route. A connected pair can also be left on `server`.

## Model

| member | source | states |
|---|---|---|
| Routing.RoutingCalculation.constructor | src/controllers/rpc/routing.ts:5 | the routing tables start empty, for the given mesh |
| Routing.RoutingCalculation.GetOrCreateRoutingTable | src/controllers/rpc/routing.ts:7-14 | a peer without a table gets an empty one; an existing table is untouched |
| Routing.RoutingCalculation.CalculateRouteBetween | src/controllers/rpc/routing.ts:16-53 | a memoised route is returned unchanged, whatever the exclusion list, and the tables are left as they were; otherwise a source with no mesh entry gets `Server` and a direct neighbour gets `Relay([])`, and only that pair and its reverse are written; else the route is the pick among one candidate per neighbour, each built from the route found from that neighbour, and it is a one-peer relay whenever some non-excluded neighbour lists the target as a neighbour and is listed by it; the route is stored, is a walk through the mesh, and the tables stay symmetric, sound, free of self-routes and direct between mutual neighbours |
| Routing.RoutingCalculation.RouteThroughNeighbours | src/controllers/rpc/routing.ts:34-45 | the neighbours are tried in iteration order and the result is `Pick` of their candidates; each non-excluded neighbour's candidate is that neighbour in front of the route found from it (nothing when that route is `Server`); a non-excluded mutual neighbour of the target makes the result a relay through exactly one peer; every relay found is a walk from the source to the target |
| Routing.RoutingCalculation.TryNeighbour | src/controllers/rpc/routing.ts:35-44 | an excluded neighbour offers nothing and leaves the tables as they were; otherwise the route from the neighbour to the target, searched with the neighbour added to the exclusion list, is memoised, and the candidate is the neighbour followed by that route, or nothing when the route is `Server`; a neighbour that is a mutual neighbour of the target offers the one-peer relay through itself; every candidate is a walk |
| Routing.RoutingCalculation.StoreRoute | src/controllers/rpc/routing.ts:48-51 | the route goes into the source's table and its reverse (`Server` stays `Server`) into the target's table |
| Routing.RoutingCalculation.CalculateRoutesFrom | src/controllers/rpc/routing.ts:64-70 | afterwards, a route from the peer to every other peer of the list is memoised; no entry is removed |
| Routing.CollectPeers | src/controllers/rpc/routing.ts:55-61 | the peers are exactly the mesh keys plus the listed neighbours, each once |
| Routing.CalculateRoutingTables | src/controllers/rpc/routing.ts:4-74 | every ordered pair of distinct peers has a route; every stored route has its reverse in the other table; every relay is a walk through the mesh; no peer is routed to itself; two peers that list each other as neighbours get the direct link `Relay([])` |
| Routing.PickIsEarliestShortest | src/controllers/rpc/routing.ts:39-43 | the loop keeps `Server` iff no neighbour offered a relay, and otherwise ends with the first relay of minimal length (a later one replaces it only when strictly shorter) |
| Routing.OneHopWins | src/controllers/rpc/routing.ts:36-45 | when a non-excluded neighbour is a mutual neighbour of the target, the loop ends with a relay through exactly one peer, since that neighbour offers one and every relay offered has at least one peer |
| Routing.LineOfThree | src/controllers/rpc/routing.ts:16-53 | on the line A - B - C, as the driver starts from A: A reaches B directly, A reaches C through B, and C's table gets the relay through B back |
| Routing.WritePairKeepsTables | src/controllers/rpc/routing.ts:48-51 | writing a route and its reverse keeps the tables symmetric, sound, free of self-routes and direct between mutual neighbours, and memoises the route |
| Routing.ReverseTwice | src/controllers/rpc/routing.ts:51 | reversing a route twice gives it back, so the two directions agree |
| Routing.ReversedWalk | src/controllers/rpc/routing.ts:51 | a walk read backwards is a walk, so the reversed route written for the target is sound too |
| Routing.PrependWalk | src/controllers/rpc/routing.ts:38-40 | a relay through neighbour `p` is a walk when p's own route is one |
| Routing.GenerateKeySymmetric | src/controllers/rpc/routing.ts:90-92 | `generateKey(s, e) == generateKey(e, s)` |
| Routing.LexLeqTotal | src/controllers/rpc/routing.ts:91 | JavaScript's `<=` on strings is total |
| Routing.LexLeqAntisymmetric | src/controllers/rpc/routing.ts:91 | strings each `<=` the other are equal |
| Routing.PairKeysAreThePairs | src/controllers/rpc/routing.ts:94-96 | a key receives an entry iff some position pair i < j of the route produces it |
| Routing.AppendAllUsed | src/controllers/rpc/routing.ts:97-99 | under each key, the (first, last) pair is appended once per position pair with that key, after what was there |
| Routing.UsedPaths.constructor | src/controllers/rpc/routing.ts:88 | `usedPaths` starts empty |
| Routing.UsedPaths.ProcessRoute | src/controllers/rpc/routing.ts:93-102 | under the key of every position pair i < j, in loop order, the route's first and last peer are appended; an empty route changes nothing |
| Routing.UsedPaths.ProcessRow | src/controllers/rpc/routing.ts:95-100 | the inner loop appends under the keys of the pairs (start, j), j > start, in order |
| RpcAuth.Session.constructor | src/controllers/rpc/initialize-rpc-server-handler.ts:82-90 | a session holds the address, port and transport, a pending disconnection future, subscription index 0 and empty subscription maps |
| RpcAuth.Session.Resolve | src/controllers/rpc/initialize-rpc-server-handler.ts:98-101 | a pending future is settled with the reason; a settled one keeps its first value; nothing else changes |
| RpcAuth.SessionRegistry.constructor | src/controllers/rpc/initialize-rpc-server-handler.ts:140-143 | the registry starts empty, with the connected-users gauge at 0 |
| RpcAuth.Connection.constructor | src/controllers/rpc/initialize-rpc-server-handler.ts:29-34 | the challenge is `dcl-` followed by the random draw, chosen once per connection; only the authentication service is registered; no peer yet |
| RpcAuth.Connection.GetChallenge | src/controllers/rpc/initialize-rpc-server-handler.ts:35-49 | an invalid address fails and schedules the port's close; otherwise the answer is the connection's fixed challenge, and `alreadyConnected` is true iff the normalised address has a session |
| RpcAuth.Connection.Authenticate | src/controllers/rpc/initialize-rpc-server-handler.ts:64-136 | a chain that cannot be parsed fails and changes nothing; a bad address or signature fails, schedules the close and leaves the registry and context alone; otherwise a fresh session is stored under the normalised address, the previous session is kicked, a close handler is registered, the comms and topics services are added, and the answer is the address with [Comms, Topics] |
| RpcAuth.Connection.Admit | src/controllers/rpc/initialize-rpc-server-handler.ts:79-130 | the success branch: a fresh session with index 0 and empty maps becomes `context.peer` and the registry entry, the previous session of the address is resolved with `Kicked`, other sessions are untouched, and the gauge still equals the registry size |
| RpcAuth.Connection.Register | src/controllers/rpc/initialize-rpc-server-handler.ts:95-104 | the registry maps the address to the new session, exactly one entry for it; a previous session is kicked before being replaced; other entries are unchanged |
| RpcAuth.Connection.GetDisconnectionMessage | src/controllers/rpc/initialize-rpc-server-handler.ts:50-55 | without a peer the call fails with "no peer found"; otherwise it awaits the session that is the peer when the call starts |
| RpcAuth.AwaitDisconnection | src/controllers/rpc/initialize-rpc-server-handler.ts:55-62 | on the awaited session: while its future is pending the call is still waiting and nothing changes; once settled it answers that reason and schedules the close of that session's transport |
| RpcAuth.KickedAfterReauthentication | src/controllers/rpc/initialize-rpc-server-handler.ts:50-101 | a call started as "a" answers `Kicked` and closes its connection's transport when another connection authenticates as "a", although the first connection has meanwhile authenticated as "b" |
| RpcAuth.KickedBySameAddress | src/controllers/rpc/initialize-rpc-server-handler.ts:50-101 | re-authenticating as the same address kicks the connection's own earlier session, so a call waiting on it answers `Kicked` and closes the transport |
| RpcAuth.Connection.RunCloseHandler | src/controllers/rpc/initialize-rpc-server-handler.ts:111-118 | a handler that already ran does nothing; otherwise it marks itself as run and deletes its address only if the stored session's port is this port |
| RpcAuth.Connection.OnPortClose | src/controllers/rpc/initialize-rpc-server-handler.ts:111-121 | the registry afterwards is the old one minus exactly those pending addresses whose stored session belongs to this port; every handler is marked as run; the gauge equals the registry size |
| RpcAuth.Connection.RunCloseHandlers | src/controllers/rpc/initialize-rpc-server-handler.ts:111-121 | running the handlers in registration order sweeps exactly the pending addresses whose session is on this port |
| RpcAuth.SweptTrans | src/controllers/rpc/initialize-rpc-server-handler.ts:116-118 | two sweeps in a row remove what one sweep of both address sets removes |
| RpcAuth.SweptIsMap | src/controllers/rpc/initialize-rpc-server-handler.ts:116-118 | a sweep leaves exactly the map comprehension of the surviving entries |
| RpcAuth.PendingSnoc | src/controllers/rpc/initialize-rpc-server-handler.ts:110-115 | registering a handler adds its address to the pending ones iff it has not run |
| Comms.SaltTopic | src/controllers/rpc/comms.ts:26-28 | the salted topic starts with `client-proto.` and is the topic behind it |
| Comms.UnsaltTopic | src/controllers/rpc/comms.ts:31-36 | a topic with the prefix is unsalted to the topic whose salting it is; one without the prefix is returned unchanged |
| Comms.UnsaltSalt | src/controllers/rpc/comms.ts:26-36 | `unsaltTopic(saltTopic(t)) == t` for every `t` |
| Comms.UnsaltOnce | src/controllers/rpc/comms.ts:31-35 | unsalting removes the prefix only once |
| Comms.SaltSegments | src/controllers/rpc/comms.ts:7 | salting adds exactly one leading segment, `client-proto` |
| Comms.SaltKeepsMatching | src/controllers/rpc/comms.ts:11-18 | a salted subscription matches a salted publish iff the client topics match |
| Comms.PublishToTopic | src/controllers/rpc/comms.ts:10-16 | the payload reaches, once, exactly the channels whose pattern matches the salted topic, and the call answers `ok` |
| Comms.ForwardMessages | src/controllers/rpc/comms.ts:19-21 | every broker message is passed on in order with its data, its subject unsalted and sender `0x0` |
| Comms.SubscribeToTopic | src/controllers/rpc/comms.ts:17-18 | a fresh, open channel is stored under the salted topic |
| Comms.SubscribeThenPublish | src/controllers/rpc/comms.ts:10-22 | a subscriber receives a publish exactly when its topic pattern matches, and sees it under the publisher's topic with sender `0x0` |
| MessageBroker.SegmentsMatch | test/helpers/message-broker.ts:20-31 | the segment loop with its early returns answers true iff the pattern and subject have as many segments and each pattern segment is `*` or equal |
| MessageBroker.LiteralPatternMatchesItself | test/helpers/message-broker.ts:20-31 | a pattern without a `*` segment matches exactly the identical subject |
| MessageBroker.StarMatchesOneSegment | test/helpers/message-broker.ts:20-31 | `*` matches a subject iff it has no dot |
| MessageBroker.Channel.constructor | test/helpers/message-broker.ts:38-40 | a new channel is open and empty, for its pattern |
| MessageBroker.LocalBroker.constructor | test/helpers/message-broker.ts:15 | the channel table starts empty |
| MessageBroker.LocalBroker.Subscribe | test/helpers/message-broker.ts:37-46 | a fresh channel is stored under the pattern, replacing an earlier one for the same pattern |
| MessageBroker.LocalBroker.Unsubscribe | test/helpers/message-broker.ts:38-43 | closing a channel deletes its pattern's entry once; closing again changes nothing |
| MessageBroker.LocalBroker.Publish | test/helpers/message-broker.ts:18-35 | `{subject: topic, data}` is pushed once into every channel whose pattern matches, and into no other |
| Prim.MinKey | src/controllers/test.ts:12-25 | the earliest vertex of minimal key among those outside the tree with a key below the sentinel; 0 when there is none |
| Prim.Relax | src/controllers/test.ts:60-67 | exactly the vertices outside the tree whose non-zero edge from `u` is below their key get that weight as key and `u` as parent; all others are unchanged |
| Prim.PrimMST | src/controllers/test.ts:8-70 | the root's parent is -1; the main loop runs V - 1 rounds, the trace starting from key 0 and parent -1 at the root, the sentinel and no parent elsewhere, and an empty tree; in each round the vertex added is `minKey`'s choice (the earliest vertex of minimal key outside the tree) and exactly the vertices its edges improve get that edge's weight as key and the added vertex as parent; the parent array returned is the trace's last state; the first round adds the root; the tree is exactly the set of vertices picked; every vertex whose key is below the sentinel has a parent, in the tree, at the end of a non-zero edge whose weight is its key; every parent entered the tree before its child |
| Prim.AddVertex | src/controllers/test.ts:48-68 | one round: the vertex `minKey` picks (0 when there is no candidate) joins the tree, and exactly the vertices outside the tree that its edges improve get the edge's weight as key and the picked vertex as parent, all other keys and parents unchanged; the parent-edge invariant is kept |
| Prim.RoundProgress | src/controllers/test.ts:48-68 | a round never raises a key, and while some vertex outside the tree has a key below the sentinel it adds a new such vertex |
| Prim.FirstPickIsRoot | src/controllers/test.ts:44-51 | the first round adds the root, whose key 0 is the unique minimum |
| Prim.RoundDeterministic | src/controllers/test.ts:12-68 | two rounds from the same key, tree and parent state pick the same vertex and reach the same state |
| Prim.TraceDeterministic | src/controllers/test.ts:28-68 | two traces from the same initial state agree on every pick and every state, so the parent array `PrimMST` returns is the one the loop computes |
| Prim.TraceParentsEnteredFirst | src/controllers/test.ts:54-66 | after any number of rounds, each parent other than the root's -1 is a vertex that was in the tree at a state where its child was not |
| Prim.Start | src/controllers/test.ts:28-45 | the fresh arrays are the initial state: key 0 and parent -1 at the root, the sentinel, no parent and no tree vertex elsewhere |
| Prim.GrowTreeKeepsParentEdges | src/controllers/test.ts:54 | adding a vertex to the tree keeps every parent edge valid |
| Prim.RelaxKeepsParentEdges | src/controllers/test.ts:64-66 | after relaxation each assigned parent is in the tree and its edge weight is the key |
| Prim.CreateRandomGraph | src/controllers/test.ts:72-91 | a 10×10 matrix whose cell {a, b} is the value drawn at the later of its two writes; hence symmetric, with a zero diagonal and entries in {0, 1} |
| Prim.FillRow | src/controllers/test.ts:80-84 | one row of the double loop brings the written-so-far invariant from (u, 0) to (u+1, 0) |
| Prim.WriteCell | src/controllers/test.ts:81-83 | one iteration writes the drawn value into both cells of its pair |
| ServiceDiscovery.ServiceDiscoveryComponent.constructor | src/ports/service-discovery.ts:25-26 | both tables start empty |
| ServiceDiscovery.ServiceDiscoveryComponent.OnDiscoveryMessage | src/ports/service-discovery.ts:36-44 | a decoded message sets the server's status and its last-update time to now, overwriting; a message that fails to decode changes neither table; both tables keep the same keys |
| ServiceDiscovery.ServiceDiscoveryComponent.HealthCheck | src/ports/service-discovery.ts:51-57 | exactly the servers last updated before `now - interval` are removed from both tables; all others are untouched |
| ServiceDiscovery.ServiceDiscoveryComponent.GetClusterStatus | src/ports/service-discovery.ts:61-63 | the answer is exactly the status table |
| ServiceDiscovery.DiscoveredServer | src/ports/service-discovery.ts:38-40 | reading `serverName` and `status` fails iff the decoded value is `null` or `undefined`; on an object they are its fields, or `undefined` |
| ServiceDiscovery.HealthCheckIdempotent | src/ports/service-discovery.ts:51-57 | a second sweep at the same time removes nothing more |
| StatusCache.Lookup | src/ports/status.ts:42-60 | a record younger than five minutes is served and kept, whatever the service would answer; otherwise the service's answer is returned and kept when there is one, and a failure keeps the old record |
| StatusCache.RefreshedServedForFiveMinutes | src/ports/status.ts:42-55 | a record refreshed at `now` is served by every call before `now` plus five minutes |
| StatusCache.ExpiredRecordRefetched | src/ports/status.ts:42-47 | a record five minutes old or older is not served on its own; the service is asked again |
| PortsStatus.ServiceStatusOf | src/ports/status.ts:49-53 | a record exists iff the body is not `null` or `undefined`; it is stamped now and copies `version` and `commitHash` |
| PortsStatus.LighthouseStatusOf | src/ports/status.ts:98-103 | a record exists iff `env.commitHash` can be read; `realmName` is the body's `name` |
| PortsStatus.LighthouseNeedsEnv | src/ports/status.ts:102 | a lighthouse body gives a record iff it is an object whose `env` is neither `null` nor `undefined` |
| PortsStatus.StatusComponent.constructor | src/ports/status.ts:39-88 | the three URLs come from the configuration; nothing is cached |
| PortsStatus.StatusComponent.GetLambdasStatus | src/ports/status.ts:41-61 | the answer and the kept record are the cache rule applied to the lambdas `/status` record; the other caches are unchanged |
| PortsStatus.StatusComponent.GetContentStatus | src/ports/status.ts:65-85 | the same for the content `/status` |
| PortsStatus.StatusComponent.GetLighthouseStatus | src/ports/status.ts:90-111 | the same for the lighthouse `/status` |
| AdaptersStatus.LambdasHealth | src/adapters/status.ts:52-57 | no report iff the fetch failed or the body is `null` or `undefined`; each of content, lambdas and comms is true iff the field `content`, `lambda` or `comms` is exactly `"Healthy"` |
| AdaptersStatus.ServiceStatusOf | src/adapters/status.ts:75-80 | a record exists iff the body is not `null` or `undefined`; the version is `catalystVersion`, and it carries the public URL |
| AdaptersStatus.LighthouseStatusOf | src/adapters/status.ts:122-132 | no URL configured or no readable `env.commitHash` gives no record; otherwise the record copies `name`, `version`, `env.commitHash` and `usersCount`, and carries the URL |
| AdaptersStatus.ServedRecordCarriesUrl | src/adapters/status.ts:73-82 | every record a getter serves or keeps carries its service's URL, and a refreshed one is stamped now |
| AdaptersStatus.StatusComponent.constructor | src/adapters/status.ts:37-38 | the two URLs come from the configuration; nothing is cached |
| AdaptersStatus.StatusComponent.GetLambdasHealth | src/adapters/status.ts:50-64 | the answer is the mapping of the lambdas `/health` body; it is never cached |
| AdaptersStatus.StatusComponent.GetLambdasStatus | src/adapters/status.ts:67-88 | the cache rule applied to the lambdas `/status` record stamped with the lambdas URL; other caches unchanged |
| AdaptersStatus.StatusComponent.GetContentStatus | src/adapters/status.ts:91-112 | the same for the content `/status` |
| AdaptersStatus.StatusComponent.GetLighthouseStatus | src/adapters/status.ts:116-140 | the same for the lighthouse, a missing `LIGHTHOUSE_URL` counting as a failure |
| Js.Split | src/ports/realm.ts:65 | at least one piece, and no piece holds the separator |
| Js.JoinSplit | src/ports/realm.ts:65 | joining the pieces of a split gives the string back |
| Js.SplitJoin | src/ports/realm.ts:65 | splitting a join of separator-free pieces gives the pieces back |
| Js.Trim | src/ports/realm.ts:72 | the result is the string stripped of white space at both ends, and starts and ends with something else |
| Js.And | src/controllers/handlers/about-handler.ts:93 | `a && b` is truthy iff both are |
| CatalystNames.Options | src/ports/realm.ts:60-66 | without `REALM_NAMES`, or with it empty, the default names; otherwise comma-free pieces that join back to it |
| CatalystNames.OptionsInjective | src/ports/realm.ts:65 | two configured lists give the same candidates only when they are the same string |
| CatalystNames.NormalizeDomain | src/ports/realm.ts:72-81 | skipped iff the trimmed domain starts with `http://`; otherwise it starts with `https://`, kept when it already did and prefixed when not |
| CatalystNames.NormalizeIdempotent | src/ports/realm.ts:72-81 | normalising a normalised base URL changes nothing |
| CatalystNames.NormalizedUntrimmed | src/ports/realm.ts:72-81 | a base URL has no white space at either end |
| CatalystNames.AboutName | src/ports/realm.ts:87-89 | a name iff the `/about` body and its `configurations` are truthy; it is `configurations.realmName` |
| CatalystNames.FirstFree | src/ports/realm.ts:127-133 | the first candidate no catalyst reports, every earlier one being taken; none only when every candidate is taken |
| CatalystNames.CollectNames | src/ports/realm.ts:120-125 | asking the catalysts one after the other collects exactly the existing names |
| PortsRealm.CommsStatusName | src/ports/realm.ts:94-98 | a name iff the `/comms/status` body is not `null` or `undefined`; it is the body's `name` |
| PortsRealm.CatalystName | src/ports/realm.ts:68-104 | a plain-http domain reports nothing; otherwise `/about`'s `configurations.realmName` when the body and `configurations` are truthy, and else `/comms/status`'s `name`, or nothing when that fails too |
| PortsRealm.AboutTakesPrecedence | src/ports/realm.ts:83-89 | once `/about` names a catalyst, `/comms/status` does not affect the name |
| PortsRealm.Realm.constructor | src/ports/realm.ts:45-50 | the stored name is the file's contents, none when there is no file |
| PortsRealm.Realm.StoreName | src/ports/realm.ts:52-58 | a successful write stores the name; a failed one changes nothing |
| PortsRealm.Realm.GetName | src/ports/realm.ts:106-140 | a non-empty stored name is returned and nothing changes; otherwise a non-empty lighthouse name is adopted and stored; otherwise the first free candidate is picked and stored; when all are taken nothing is stored and the old value is returned |
| PortsRealm.Realm.PickCandidate | src/ports/realm.ts:127-139 | the loop picks and stores the first free candidate, or leaves everything as it was |
| AdaptersRealm.Kept | src/adapters/realm.ts:30 | `path.join` keeps exactly the segments that are neither empty nor `.`, in order, each in the input |
| AdaptersRealm.KeptOne | src/adapters/realm.ts:30 | one segment is dropped iff it is empty or `.` |
| AdaptersRealm.KeptPlain | src/adapters/realm.ts:30 | segments that are neither empty nor `.` are all kept, unchanged |
| AdaptersRealm.KeptConcat | src/adapters/realm.ts:30 | `Kept(a + b) == Kept(a) + Kept(b)`: with KeptOne this fixes Kept on every list of segments |
| AdaptersRealm.PathJoin | src/adapters/realm.ts:30 | the joined path ends with the file name; a directory with no kept segment gives the name alone, after `/` for an absolute one |
| AdaptersRealm.PathJoinRelative | src/adapters/realm.ts:30 | a relative directory of plain segments is joined with the name by one `/`: `dir + "/" + name` |
| AdaptersRealm.PathJoinAbsolute | src/adapters/realm.ts:30 | an absolute directory of plain segments keeps its leading `/` and is joined with the name by one `/` |
| AdaptersRealm.PathJoinTrailing | src/adapters/realm.ts:30 | one trailing `/` of the directory is dropped, so `dir/` and `dir` give the same path |
| AdaptersRealm.PathJoinSameKept | src/adapters/realm.ts:30 | directories with the same kept segments and the same leading `/` give the same path |
| AdaptersRealm.ConfigFile | src/adapters/realm.ts:29-30 | the name file always ends with `.catalyst-name`; with `STORAGE_LOCATION` unset or empty it is `.catalyst-name` in the working directory |
| AdaptersRealm.ConfigFileBelow | src/adapters/realm.ts:29-30 | a `STORAGE_LOCATION` of plain segments, relative, absolute or with one trailing `/`, holds the name file directly below it: `dir/.catalyst-name` |
| AdaptersRealm.ConfigFileAbsoluteSegment | src/adapters/realm.ts:29-30 | a location one directory below the root, such as `/data`, gives `/data/.catalyst-name` |
| AdaptersRealm.ConfigFileAt | src/adapters/realm.ts:29-30 | a set, non-empty `STORAGE_LOCATION` is joined with `.catalyst-name` as it is |
| AdaptersRealm.CatalystName | src/adapters/realm.ts:55-82 | a plain-http domain reports nothing; otherwise `/about`'s `configurations.realmName` when both are truthy, and nothing else |
| AdaptersRealm.AgreesWithPortsWhenAboutNames | src/adapters/realm.ts:70-76 | where `/about` names a catalyst, both components give it the same name |
| AdaptersRealm.Realm.constructor | src/adapters/realm.ts:29-37 | the name file is located once, and the stored name is its contents |
| AdaptersRealm.Realm.StoreName | src/adapters/realm.ts:39-45 | a successful write stores the name; a failed one changes nothing |
| AdaptersRealm.Realm.GetName | src/adapters/realm.ts:84-118 | the same order as ports: stored name, then lighthouse name, then the first free candidate, or the old value when all are taken |
| AdaptersRealm.Realm.PickCandidate | src/adapters/realm.ts:105-117 | the loop picks and stores the first free candidate, or leaves everything as it was |
| About.V3Comms | src/controllers/handlers/about-handler.ts:79-91 | under `v3`, comms is healthy when the cluster status has a truthy `archipelago`, whose fields are copied over; otherwise just `healthy: false` |
| About.AboutRealmName | src/controllers/handlers/about-handler.ts:39 | the name reported is the name already held, or with none held the non-empty protocol (which the realm then holds), or with an empty protocol the first candidate no catalyst reports, and the name held before when every candidate is taken |
| About.AboutHandler | src/controllers/handlers/about-handler.ts:25-99 | `bff.healthy` is true and the protocol is echoed; the realm name is the one already held, or with none held the non-empty protocol, or with an empty protocol the first candidate no catalyst reports (the name held before when every one is taken); the content and lambdas flags are the `/health` report, false when it fails; comms is that report, or `V3Comms` under `v3`; the overall flag is truthy iff all three are, and the status is 200 then and 503 otherwise |

## Left out

- URL serialisation: src/adapters/status.ts:37-38 parses `LAMBDAS_URL` and `CONTENT_URL` with `new URL`. The model takes their serialised strings as given.
- `path.join` folding of `..` segments is not modelled. `AdaptersRealm.PathJoin` drops empty and `.` segments, which covers repeated and trailing separators, but keeps `..` as a segment.
- The catalyst contract calls (`catalystCount`, `catalystIds`, `catalystById`) become the list of registered domains. Their failures are not modelled.
- `onPeerConnected` and `onPeerDisconnected` (initialize-rpc-server-handler.ts:107, 119) are not part of the shown comms module, so they are treated as doing nothing. The same holds for the registered service definitions beyond their names.
- Timers: the `setImmediate` close, the 10-second transport close and the health-check `setInterval` are recorded as flags or explicit calls. No time passes inside the model.
- Logging and metrics, except the connected-users gauge, which is the registry size.
- Protocol Buffers encoding of messages, and the async-generator streaming of `subscribeToTopic`. `ForwardMessages` maps an already received sequence.
- Comms.SubscribeToTopic: src/controllers/rpc/comms.ts:19 calls `messageBroker.subscribeGenerator`, which neither src/ports/message-broker.ts nor test/helpers/message-broker.ts defines (both define only `subscribe`). The model subscribes through `MessageBroker.LocalBroker.Subscribe` and forwards the channel's messages with `ForwardMessages`.
- ServiceDiscovery.ServiceDiscoveryComponent.OnDiscoveryMessage: the status maps compare keys by value. A JavaScript `Map` compares an object or array `serverName` by identity, so two decoded messages with equal object names make two entries in the source and one in the model. Primitive names agree.
- Object spread and `Object.fromEntries` on keys that are not strings. `About.Spread` copies the fields of an object value only, and the cluster status is looked up under the string key `archipelago`.
- The module-level demonstration in src/controllers/rpc/routing.ts:76-122 and in src/controllers/test.ts:93-129 (DOT output, timing, file writes), apart from `processRoute` on list routes.
- PortsStatus.ServiceStatusOf, AdaptersStatus.ServiceStatusOf: JSON bodies are taken as already decoded values. Numbers are not distinguished by width, and a body that is a string or a number simply has no fields, as in JavaScript.
- Prim.MinKey: `Number.MAX_VALUE` is the sentinel `MaxValue`, and weights are naturals below it. Floating-point keys are not modelled.
- Prim.PrimMST: the result does not claim minimality of the tree. It states the rounds the loop runs, the choice and the key and parent updates made in each, and the parent-edge invariant the code maintains.
- Routing.CalculateRoutingTables: no shortest-route claim, because the memo ignores the exclusion list. Iteration order of `Set` and `Map` is the order of the mesh's sequences. Beyond direct links, what a relay found deep in the search is depends on the whole order of the searches; Routing.LineOfThree works one small mesh through.
- Routing.LexLeq, Routing.GenerateKey: JavaScript compares strings by UTF-16 code units, the model by Unicode scalar values. The two orders differ only between a character above U+FFFF and one in U+E000-U+FFFF (U+1F600 sorts before U+FF5E in JavaScript, after it here).
- RpcAuth.Connection.Authenticate, RpcAuth.Connection.Admit: each runs as one atomic step. In the source, the awaits at src/controllers/rpc/initialize-rpc-server-handler.ts:77 and :107 come before the close handler is attached at :111. A transport that closes in that window finds no handler, so its session stays in the registry. The model does not let a close fall between registration and the handler.

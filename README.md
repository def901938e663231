# Snapland: realtime presence hub, polygon validation, area controllers and client stores

Snapland is a collaborative GIS application. Users draw areas (polygons in
WGS84 longitude/latitude) on a shared map and keep numbered versions of them.
They also see, in real time, who else is online and what others are drawing.
This project models the core of that system in Dafny and proves properties of
the model:

- **Polygon validation** (`PolygonValidator.FromLngLat`) turns `[lng, lat]`
  pairs into a closed ring, or reports why it cannot.
- **The presence cache** (`UserCacheService`) holds the list of users with their
  active flag, and answers "who is active, except this user?".
- **The realtime hub**:
  - The connection record has a fresh id and an `IsAlive` state.
  - The connection registry (`WebSocketManager`) sends one serialized
    message to one live connection of every user in an audience.
  - The message handler decides what each incoming message broadcasts.
  - The `/ws` middleware runs the handshake and the life of one connection.
    It registers the connection, announces the users' status, receives
    frames until a close or an error, unregisters the connection and
    announces the status again.
- **The area controllers**:
  - `CreateArea` stores an area together with its version 1.
  - `GetAreas` lists the areas that intersect a bounding box.
  - `CreateVersion` adds a validated version under the next version number.
  - `GetVersions` lists an area's versions in ascending order, to its creator only.
- **The client stores**:
  - the de-duplicating toast store (`use-toast.js`);
  - the plain toast store (`use-toast-base.js`);
  - the presence reducer with its initial fetch (`WebSocketContext.jsx`).

The model takes each source file's own form:

- State that the source changes in place is a class whose `seq`/`map` fields
  the methods reassign. That covers the user cache, the connection registry,
  the middleware with its counter and broadcast trace, and the database
  behind the controllers.
- Pure code is functions and lemmas: the validator, the message dispatch and
  the reducers.
- Loops are methods with invariants: the receive loop, the broadcast over the
  audience and the client's `forEach` that builds the presence map.

Foreign code is passed in as function parameters:

- JSON parsing and serialization;
- the NTS validity check and PostGIS `Intersects`;
- JWT validation and UTF-8 decoding.

Fresh `Guid`s and `Date.now()` are parameters. A connection's
`Guid.NewGuid()` is a counter whose freshness is proved.

Where the code differs from the documentation of the system, the model
follows the code:

- The code's `users_status` refreshes are never sent by `BroadcastUsersAsync`.
  The middleware calls a `BroadcastAllUsersStatusAsync`, and the handler calls a
  `BroadcastAsync`, that no source file defines. The model records both as
  events in the middleware's trace, and does not guess how they are sent.
- `GetVersions` checks only that the caller created the area. Unlike
  `CreateVersion`, it does not check the soft-delete flag, so the versions of a
  deleted area are still listed to its creator.
- `CreateArea` reads `dto.UserId`, which `AreaCreateDto` does not declare. The
  model gives the DTO that field, the creator's id.
- `user:inactive` has no case in the handler's switch, so it is only logged.

## Model

| member | source | states |
|---|---|---|
| Geometry.CloseRing | SnaplendServer/Snapland.Server/Api/Services/PolygonValidator.cs:21-25 | the ring is closed, keeps the input as its prefix, and is one longer exactly when the input was open |
| Geometry.CloseRingIdempotent | SnaplendServer/Snapland.Server/Api/Services/PolygonValidator.cs:21-25 | closing an already closed ring changes nothing |
| Geometry.CloseRingAddsNoNewPosition | SnaplendServer/Snapland.Server/Api/Services/PolygonValidator.cs:24 | every ring position is one of the input positions |
| Geometry.CoordinatePairs | SnaplendServer/Snapland.Server/Api/Controllers/AreasController.cs:72 | the response coordinates are the ring's positions as `[x, y]` pairs, in order |
| PolygonValidator.ToPositions | SnaplendServer/Snapland.Server/Api/Services/PolygonValidator.cs:27 | pair i becomes position i, and nothing else is added or dropped |
| PolygonValidator.RingOf | SnaplendServer/Snapland.Server/Api/Services/PolygonValidator.cs:21-27 | the ring built from guarded input is closed, has at least 4 positions, starts with the input pairs in order, and is as long as the input or one longer |
| PolygonValidator.FromLngLat | SnaplendServer/Snapland.Server/Api/Services/PolygonValidator.cs:10-40 | null or fewer than 4 pairs gives the too-few-points error; an end pair that is not `[lng, lat]` gives its error; "not closed" is unreachable; otherwise the verdict is the validity check's on the closed ring with SRID 4326; `IsValid` holds iff there is no error and there is a polygon |
| PolygonValidator.ValidPolygonShape | SnaplendServer/Snapland.Server/Api/Services/PolygonValidator.cs:21-39 | a valid polygon is closed, has SRID 4326 and at least 4 positions, and starts with the input pairs in order; it has n+1 positions for open input and n for closed input |
| PolygonValidator.OpenTriangleRejected | SnaplendServer/Snapland.Server/Api/Services/PolygonValidator.cs:12-13 | three pairs are rejected with the too-few-points error, even though closing them would give four |
| PolygonValidator.UnclosedSquareGetsFivePoints | SnaplendServer/Snapland.Server/Api/Services/PolygonValidator.cs:21-27 | an open unit square is closed to five positions, the last one equal to the first |
| UserCache.FirstIndexOf | SnaplendServer/Snapland.Server/Api/Services/UserCacheService.cs:38 | the index of the first entry with that id, or the length when there is none |
| UserCache.Ids | SnaplendServer/Snapland.Server/Api/Services/UserCacheService.cs:38 | the ids of the entries, position by position |
| UserCache.WithStatus | SnaplendServer/Snapland.Server/Api/Services/UserCacheService.cs:34-42 | reference definition of an update; `WithStatusAt` proves it changes only the flag of the first entry with that id and keeps the length |
| UserCache.ActiveUsers | SnaplendServer/Snapland.Server/Api/Services/UserCacheService.cs:44-52 | never longer than the cache, and every entry is active and not the excluded id; `ActiveUsersMembership` gives the converse |
| UserCache.WithStatusAt | SnaplendServer/Snapland.Server/Api/Services/UserCacheService.cs:34-42 | an update changes only `IsActive` of the first entry with that id; every other entry is unchanged, and so is the length |
| UserCache.UnknownIdIsNoOp | SnaplendServer/Snapland.Server/Api/Services/UserCacheService.cs:38-40 | an unknown id leaves the list unchanged and inserts nothing |
| UserCache.WithStatusKeepsIds | SnaplendServer/Snapland.Server/Api/Services/UserCacheService.cs:38-40 | an update never changes which ids are cached, or in what order |
| UserCache.WithStatusIdempotent | SnaplendServer/Snapland.Server/Api/Services/UserCacheService.cs:38-40 | applying the same update twice equals applying it once |
| UserCache.ActiveUsersMembership | SnaplendServer/Snapland.Server/Api/Services/UserCacheService.cs:48-50 | an entry is returned iff it is cached, active and not the excluded id; no exclusion excludes nobody |
| UserCache.ActiveUsersAppend | SnaplendServer/Snapland.Server/Api/Services/UserCacheService.cs:48-50 | the filter keeps cache order |
| UserCache.ActiveUsersBounds | SnaplendServer/Snapland.Server/Api/Services/UserCacheService.cs:48-50 | never more entries than the cache; all of them when all are active and nobody is excluded |
| UserCache.ActiveUsersDistinct | SnaplendServer/Snapland.Server/Api/Services/UserCacheService.cs:48-50 | a cache without repeated ids gives an audience without repeated ids |
| UserCache.UserCacheService.constructor | SnaplendServer/Snapland.Server/Api/Services/UserCacheService.cs:8-14 | the cache starts empty |
| UserCache.UserCacheService.LoadInitialUsers | SnaplendServer/Snapland.Server/Api/Services/UserCacheService.cs:27-31 | after a load the cache is exactly the loaded list, in order, with no earlier entry left |
| UserCache.UserCacheService.UpdateUserStatus | SnaplendServer/Snapland.Server/Api/Services/UserCacheService.cs:34-42 | the new cache is the reference update of the old one; its length is kept; an unknown id is a no-op |
| UserCache.UserCacheService.GetActiveUsers | SnaplendServer/Snapland.Server/Api/Services/UserCacheService.cs:44-52 | returns the active, non-excluded entries in cache order, and changes nothing |
| Connection.NewConnection | SnaplendServer/Snapland.Server/Realtime/Websockets/WebSocketConnection.cs:7-17 | the connection carries the given user id, the given socket and the freshly drawn id; `IsAlive` holds iff the socket is `Open` |
| WebSocketManager.SendsOf | SnaplendServer/Snapland.Server/Realtime/Websockets/WebSocketManager.cs:50-61 | reference definition of the sends: one per chosen recipient, all with the same buffer; `SendsOfMember`, `SendsOfSize` and `SendsOfComplete` state its meaning |
| WebSocketManager.SendsOfMember | SnaplendServer/Snapland.Server/Realtime/Websockets/WebSocketManager.cs:47-61 | every send carries the one serialized buffer and goes to a chosen recipient |
| WebSocketManager.SendsOfSize | SnaplendServer/Snapland.Server/Realtime/Websockets/WebSocketManager.cs:50-61 | at most one send per audience entry; no sends iff no entry has a live connection |
| WebSocketManager.SendsReachOnlyTheAudience | SnaplendServer/Snapland.Server/Realtime/Websockets/WebSocketManager.cs:35-61 | every send goes to a registered, open connection of an active user other than the excluded one |
| WebSocketManager.AtMostOneSendPerUser | SnaplendServer/Snapland.Server/Realtime/Websockets/WebSocketManager.cs:50-53 | with distinct cached ids, two audience entries never reach the same user or the same connection |
| WebSocketManager.SendsOfComplete | SnaplendServer/Snapland.Server/Realtime/Websockets/WebSocketManager.cs:52-59 | every chosen recipient receives the buffer |
| WebSocketManager.EveryLiveAudienceUserIsSent | SnaplendServer/Snapland.Server/Realtime/Websockets/WebSocketManager.cs:50-60 | every audience user with a live connection gets the buffer on one of its live connections |
| WebSocketManager.DeliverAsWritten | SnaplendServer/Snapland.Server/Realtime/Websockets/WebSocketManager.cs:50-61 | the fan-out as written: the broadcast faults iff some chosen recipient's send throws |
| WebSocketManager.DeliverIsolated | SnaplendServer/Snapland.Server/Realtime/Websockets/WebSocketManager.cs:50-61 | the fan-out with each send's failure caught: it never faults and delivers only sends the broadcast asked for |
| WebSocketManager.IsolatedDeliversToHealthyRecipients | SnaplendServer/Snapland.Server/Realtime/Websockets/WebSocketManager.cs:50-61 | with failures isolated, every chosen recipient whose send does not throw receives the buffer |
| WebSocketManager.ThrowingSendStopsLaterSends | SnaplendServer/Snapland.Server/Realtime/Websockets/WebSocketManager.cs:50-61 | as written, a first send that throws faults the broadcast and a healthy second recipient may get nothing; isolated, it does |
| WebSocketManager.WebSocketManager.constructor | SnaplendServer/Snapland.Server/Realtime/Websockets/WebSocketManager.cs:13-19 | the registry starts empty and shares the given cache |
| WebSocketManager.WebSocketManager.AddConnection | SnaplendServer/Snapland.Server/Realtime/Websockets/WebSocketManager.cs:21-24 | the connection is found under its id afterwards; entries under other ids are unchanged; the registry stays keyed by connection id |
| WebSocketManager.WebSocketManager.RemoveConnection | SnaplendServer/Snapland.Server/Realtime/Websockets/WebSocketManager.cs:26-29 | the key is gone, an absent id is a no-op (so repeating is idempotent), and other entries are unchanged |
| WebSocketManager.WebSocketManager.GetAllConnections | SnaplendServer/Snapland.Server/Realtime/Websockets/WebSocketManager.cs:31 | returns exactly the registered connections |
| WebSocketManager.WebSocketManager.LiveConnectionFor | SnaplendServer/Snapland.Server/Realtime/Websockets/WebSocketManager.cs:52-53 | none iff the user has no registered live connection; otherwise a registered, open connection of that user |
| WebSocketManager.WebSocketManager.BroadcastUsers | SnaplendServer/Snapland.Server/Realtime/Websockets/WebSocketManager.cs:33-62 | the audience is the cache's active users minus the excluded one; an empty audience serializes and sends nothing; `users_status` sends the audience itself, any other type the caller's value; one serialization, and each audience user with a live connection gets exactly that buffer; neither the registry nor the cache changes; every send is one attempted, with no send assumed to throw |
| MessageHandler.HandleMessage | SnaplendServer/Snapland.Server/Realtime/Websockets/WebSocketMessageHandler.cs:14-61 | a broadcast happens iff the message parses to an object with a string `type` that is a drawing type or `user:active`; drawing messages relay the re-serialized envelope; `user:active` announces the sender's id; every broadcast excludes the sender's user; a missing `type`, a parse failure or any caught exception broadcasts nothing |
| MessageHandler.UserInactiveIsIgnored | SnaplendServer/Snapland.Server/Realtime/Websockets/WebSocketMessageHandler.cs:35-37 | `user:inactive` broadcasts nothing |
| RealtimeMiddleware.IsRealtimePath | SnaplendServer/Snapland.Server/Realtime/Websockets/RealtimeMiddleware.cs:26 | predicate for the `/ws` path, compared without regard to case; `RealtimePathCases` pins it down |
| RealtimeMiddleware.RealtimePathCases | SnaplendServer/Snapland.Server/Realtime/Websockets/RealtimeMiddleware.cs:26 | `/ws` matches in any case; `/`, `/ws/`, `/wss`, `ws` and `/api/areas` do not |
| RealtimeMiddleware.FirstStop | SnaplendServer/Snapland.Server/Realtime/Websockets/RealtimeMiddleware.cs:83-89 | the position of the first close frame or receive error; every frame before it is a data frame |
| RealtimeMiddleware.DeliveredIsPrefix | SnaplendServer/Snapland.Server/Realtime/Websockets/RealtimeMiddleware.cs:83-92 | exactly the data chunks before the first close or error are decoded and handed over, in arrival order |
| RealtimeMiddleware.DeliveredSplit | SnaplendServer/Snapland.Server/Realtime/Websockets/RealtimeMiddleware.cs:83-92 | a run of data frames followed by more frames delivers the run first, then what the rest delivers |
| RealtimeMiddleware.Delivered | SnaplendServer/Snapland.Server/Realtime/Websockets/RealtimeMiddleware.cs:83-92 | reference definition of the messages handed over; `DeliveredIsPrefix` and `DeliveredSplit` state its meaning |
| RealtimeMiddleware.Dispatched | SnaplendServer/Snapland.Server/Realtime/Websockets/RealtimeMiddleware.cs:92 | at most one broadcast per handed-over message, and never a status refresh |
| RealtimeMiddleware.RealtimeMiddleware.constructor | SnaplendServer/Snapland.Server/Realtime/Websockets/RealtimeMiddleware.cs:14-21 | starts with no ids issued and nothing broadcast |
| RealtimeMiddleware.RealtimeMiddleware.HandleConnection | SnaplendServer/Snapland.Server/Realtime/Websockets/RealtimeMiddleware.cs:77-104 | the broadcasts asked for are the handler's decisions on the delivered messages, in order |
| RealtimeMiddleware.RealtimeMiddleware.InvokeAsync | SnaplendServer/Snapland.Server/Realtime/Websockets/RealtimeMiddleware.cs:23-68 | other paths pass through; `/ws` without an upgrade gives 400 and a blank or invalid token 401, each with nothing accepted or broadcast; otherwise a fresh connection id is served. The connection is registered before the first status broadcast and removed before the second, with exactly two per connection and the handler's broadcasts between them. The registry ends as it began and the cache never changes |
| Areas.AppDb.constructor | SnaplendServer/Snapland.Server/Api/Controllers/AreasController.cs:16 | the store starts with no areas and no versions |
| Areas.ShellOf | SnaplendServer/Snapland.Server/Api/Controllers/AreasController.cs:32-39 | the stored polygon is closed, has SRID 4326 and at least 4 positions |
| Areas.CreateAreaClosesRing | SnaplendServer/Snapland.Server/Api/Controllers/AreasController.cs:33-37 | the input positions are kept in order, and a copy of the first is appended exactly when the first differs from the last |
| Areas.ToAreaResult | SnaplendServer/Snapland.Server/Api/Controllers/AreasController.cs:67-73 | the response carries the area's id and name and one coordinate pair per ring position |
| Areas.EnvelopeRing | SnaplendServer/Snapland.Server/Api/Controllers/AreasController.cs:86-93 | the envelope ring; `EnvelopeIsBox` proves it is the closed box through the four corners |
| Areas.EnvelopeIsBox | SnaplendServer/Snapland.Server/Api/Controllers/AreasController.cs:86-93 | the envelope is a closed five-position ring through the four corners of the box, with axis-parallel sides |
| Areas.VisibleAreas | SnaplendServer/Snapland.Server/Api/Controllers/AreasController.cs:95-96 | never more areas than stored, and each listed one is not soft-deleted and intersects the envelope |
| Areas.VisibleAreasMembership | SnaplendServer/Snapland.Server/Api/Controllers/AreasController.cs:95-96 | an area is listed iff it is stored, not soft-deleted and intersects the envelope |
| Areas.AreaResults | SnaplendServer/Snapland.Server/Api/Controllers/AreasController.cs:97-104 | one result per listed area, in order |
| Areas.HighestVersion | SnaplendServer/Snapland.Server/Api/Controllers/AreaVersionsController.cs:55-58 | none iff the area has no versions; otherwise a stored number of that area, and none of its numbers is greater |
| Areas.NextVersionNumber | SnaplendServer/Snapland.Server/Api/Controllers/AreaVersionsController.cs:55-59 | greater than every existing number of the area; 1 when there is none; otherwise one more than an existing number |
| Areas.NextVersionKeepsKeysUnique | SnaplendServer/Snapland.Server/Api/Controllers/AreaVersionsController.cs:55-71 | appending the next number keeps (area id, version number) unique |
| Areas.VersionsOf | SnaplendServer/Snapland.Server/Api/Controllers/AreaVersionsController.cs:107-108 | never more versions than stored, and each listed one belongs to the area |
| Areas.VersionsOfMembership | SnaplendServer/Snapland.Server/Api/Controllers/AreaVersionsController.cs:107-108 | the listing holds exactly the stored versions of that area |
| Areas.InsertByVersionMultiset | SnaplendServer/Snapland.Server/Api/Controllers/AreaVersionsController.cs:109 | one insertion step adds exactly the one version |
| Areas.InsertByVersionSorted | SnaplendServer/Snapland.Server/Api/Controllers/AreaVersionsController.cs:109 | one insertion step keeps the order ascending |
| Areas.SortByVersion | SnaplendServer/Snapland.Server/Api/Controllers/AreaVersionsController.cs:109 | reference definition of `OrderBy`; `SortByVersionCorrect` proves it ascending and a permutation |
| Areas.SortByVersionCorrect | SnaplendServer/Snapland.Server/Api/Controllers/AreaVersionsController.cs:109 | the ordering is ascending by version number and a permutation of its input |
| Areas.VersionResults | SnaplendServer/Snapland.Server/Api/Controllers/AreaVersionsController.cs:110-117 | one result per version, in order, with its id, number, name and coordinates |
| Areas.AreasController.constructor | SnaplendServer/Snapland.Server/Api/Controllers/AreasController.cs:18-21 | the controller works on the given store |
| Areas.AreasController.CreateArea | SnaplendServer/Snapland.Server/Api/Controllers/AreasController.cs:27-74 | a blank name, null coordinates or fewer than 4 pairs gives "Invalid polygon" and stores nothing; otherwise the area and its version 1 are stored, with the same name and polygon and the creator as editor, and the reply is the stored area |
| Areas.AreasController.GetAreas | SnaplendServer/Snapland.Server/Api/Controllers/AreasController.cs:80-107 | the results are exactly the areas that are not soft-deleted and intersect the box envelope |
| Areas.AreaVersionsController.constructor | SnaplendServer/Snapland.Server/Api/Controllers/AreaVersionsController.cs:18 | the controller works on the given store |
| Areas.AreaVersionsController.CreateVersion | SnaplendServer/Snapland.Server/Api/Controllers/AreaVersionsController.cs:33-81 | missing or soft-deleted area gives 404, then a blank name gives 400, then a validator failure gives 400 with its error; none of these stores anything. Otherwise the validated polygon is stored under the next version number, with the caller as editor, and the areas never change |
| Areas.AreaVersionsController.GetVersions | SnaplendServer/Snapland.Server/Api/Controllers/AreaVersionsController.cs:95-121 | 404 iff the caller did not create an area with that id; otherwise all of the area's versions, in ascending version order |
| Toasts.AddToast | snaplend-client/src/components/ui/use-toast.js:5-20 | reference definition of `addToast`; `AddToastAppendsOrKeeps` states its meaning |
| Toasts.RemoveToast | snaplend-client/src/components/ui/use-toast.js:21-24 | never longer, and no kept toast has the removed id; `RemoveToastMembership` gives the converse |
| Toasts.ToastCall | snaplend-client/src/components/ui/use-toast.js:30-32 | `toast()` passes title and description through and defaults an undefined variant to "default"; the plain store's `toast()` (use-toast-base.js, lines 14-16) is the same code |
| Toasts.AddToastAppendsOrKeeps | snaplend-client/src/components/ui/use-toast.js:5-20 | a duplicate of (title, description, variant or "default") leaves the state unchanged; anything else is appended last with its id, earlier toasts unchanged and in order; the list grows by at most one |
| Toasts.UndefinedVariantNeverMatches | snaplend-client/src/components/ui/use-toast.js:8-19 | a toast stored with an undefined variant never counts as a duplicate |
| Toasts.RemoveToastMembership | snaplend-client/src/components/ui/use-toast.js:21-24 | `removeToast(id)` keeps exactly the toasts with another id |
| Toasts.RemoveToastAppend | snaplend-client/src/components/ui/use-toast.js:21-24 | the kept toasts stay in order |
| Toasts.RemoveToastAbsentAndTwice | snaplend-client/src/components/ui/use-toast.js:21-24 | an absent id changes nothing, and removing twice equals removing once |
| Toasts.ToastCallKeepsNoDuplicates | snaplend-client/src/components/ui/use-toast.js:8-32 | adding through `toast()` keeps the store free of duplicates, as long as no variant is the empty string |
| Toasts.EmptyVariantIsStoredTwice | snaplend-client/src/components/ui/use-toast.js:8-32 | with variant "" the same toast is stored twice |
| Toasts.AddToastDeduplicated | snaplend-client/src/components/ui/use-toast.js:8-19 | the corrected `addToast`; `DeduplicatedKeepsNoDuplicates` proves it keeps the store free of duplicates |
| Toasts.DeduplicatedKeepsNoDuplicates | snaplend-client/src/components/ui/use-toast.js:8-19 | with both variants read through the "default" fallback, every input keeps the store free of duplicates |
| ToastsBase.AddToast | snaplend-client/src/components/ui/use-toast-base.js:5-6 | always appends: one longer, the new toast last, earlier toasts unchanged |
| ToastsBase.SameToastTwiceGivesTwoEntries | snaplend-client/src/components/ui/use-toast-base.js:5-6 | there is no de-duplication: the same content added twice gives two entries |
| ToastsBase.AddThenRemoveFreshId | snaplend-client/src/components/ui/use-toast-base.js:5-8 | removing a just-added toast by its fresh id gives back the earlier list |
| PresenceReducer.HandleWebSocketMessage | snaplend-client/src/contexts/WebSocketContext.jsx:18-41 | no key is ever removed; exactly `user_joined` and `user_updated` add one, the user's key |
| PresenceReducer.JoinedOverlaysUser | snaplend-client/src/contexts/WebSocketContext.jsx:20-26 | `user_joined` and `user_updated` store the user under its id as the old fields overlaid with the message's and `isActive: true`; other entries are unchanged and none is removed |
| PresenceReducer.UserLeftMarksInactive | snaplend-client/src/contexts/WebSocketContext.jsx:28-36 | `user_left` on a known id sets only that entry's `isActive` to false; on an unknown id it adds nothing and changes nothing |
| PresenceReducer.OtherMessagesIgnored | snaplend-client/src/contexts/WebSocketContext.jsx:38-40 | any other type, `users_status` included, leaves the state unchanged |
| PresenceReducer.LeaveThenJoinIsActive | snaplend-client/src/contexts/WebSocketContext.jsx:20-36 | a user who left and joins again is active, with the new fields |
| PresenceReducer.MapUsers | snaplend-client/src/contexts/WebSocketContext.jsx:53-56 | the initial map is keyed by `id`, holds exactly the fetched users' keys, and a later duplicate id overrides an earlier one |
| PresenceReducer.Mount | snaplend-client/src/contexts/WebSocketContext.jsx:44-71 | without a token nothing is fetched or connected; with one, both happen, and the state is the id-keyed map of the fetched users, or stays empty when the fetch fails |

## Left out

- Socket I/O (accept, receive, send, close) and the `HttpContext` plumbing. The
  receive stream is a sequence of frames and the broadcasts asked for are a trace;
  a send is an element of a multiset.
- Concurrency: `Parallel.ForEachAsync`, `ConcurrentDictionary`, the cache's
  `lock` and the interleaving of several connections' lifecycles. Each
  operation is atomic and sequential.
- JSON parsing and serialization, UTF-8 decoding and JWT validation are function
  parameters. `GetString` on a non-string `type` is a caught exception, and so is
  `TryGetProperty` on a non-object root.
- NTS geometry: the simplicity check (`IsValidOp`) is a parameter returning the
  error detail, and the error's location text is not modelled. PostGIS
  `Intersects` is a parameter too.
- Floating point: coordinates are `real`s compared for equality; NaN is not modelled.
- The database: the query in `LoadInitialUsersAsync` (the model loads a given
  list), `SaveChangesAsync`, the generated `AreaKm2` column and its read-back,
  and the `CreatedAt` stamp of a version.
- `Guid.Parse` failing on a malformed excluded id, since `Guid` and its string form are one id type here.
- `SetUserActive` in `RealtimeMiddleware.cs`, which nothing calls.
- `BroadcastAllUsersStatusAsync` and `BroadcastAsync`, which are called but defined in no source file: they are trace events, not sends.
- WebSocketManager.WebSocketManager.BroadcastUsers: the recipient of a user is
  some registered live connection of that user, not the first one the
  dictionary enumerates, because that order is unspecified.
- WebSocketManager.WebSocketManager.BroadcastUsers: a `SendAsync` that throws is
  not caught per user, so it faults `Parallel.ForEachAsync`: sends not yet started
  may never start, and the exception reaches the caller. The method's `sends` are
  the sends attempted when none throws; the fault path is modelled separately by
  `DeliverAsWritten` (see Findings).
- Areas.NextVersionNumber: `VersionNumber` is a 32-bit `int`, so `+ 1` on
  `int.MaxValue` wraps to a negative number. The model uses unbounded integers,
  since reaching that many versions of one area is out of reach in practice.
- UserCache.UserCacheService.GetActiveUsers: the returned list shares the
  `UserStatusDto` objects that `UpdateUserStatus` later mutates in place, so it is
  not a snapshot. The model works on values, so that aliasing is not captured.
- RealtimeMiddleware.RealtimeMiddleware.InvokeAsync: a `CloseAsync` that throws
  in the `finally` block would skip `RemoveConnection` and the second refresh.
  This path is not modelled: closing always succeeds.
- RealtimeMiddleware.RealtimeMiddleware.HandleConnection: each chunk of at most
  4096 bytes is handed over as a whole message. End-of-message is not tracked,
  just as the code never checks it, and the socket's state is read from the
  frames.
- PresenceReducer.HandleWebSocketMessage: `user_left` mutates the inner object
  shared with the previous state. The model is on values, so that aliasing is not captured.
- PresenceReducer.Mount: the fetch is asynchronous. A channel message that
  arrives before it resolves is overwritten by the fetched map; this ordering is
  not modelled, and neither is the cleanup's disconnect.
- `Date.now()` toast ids are a parameter, and the toaster's timers are not part of this model.
- `Readable` and `CreateAreaReadable` and `ReadableOnceGuarded`: a message or
  coordinate pair that the code would dereference and throw on is excluded by a
  precondition.

## Findings

| source | as written | input that shows it | evidently intended | confidence | as-written member | corrected member |
|---|---|---|---|---|---|---|
| snaplend-client/src/components/ui/use-toast.js:8-32 | the duplicate check compares the stored variant with `toast.variant \|\| "default"`, but `toast()` stores an empty-string variant as "" | `toast({ title: "t", description: "d", variant: "" })` twice | no two stored toasts with the same title, description and variant (read with the "default" fallback) | high (not executed) | Toasts.EmptyVariantIsStoredTwice | Toasts.DeduplicatedKeepsNoDuplicates |
| SnaplendServer/Snapland.Server/Realtime/Websockets/WebSocketManager.cs:50-61 | `SendAsync` is awaited inside the `Parallel.ForEachAsync` body with no per-user catch | two audience users with live connections, the first whose send throws | each failed send is isolated; the other users still get the update, and nothing reaches the caller | medium (not executed) | WebSocketManager.ThrowingSendStopsLaterSends | WebSocketManager.IsolatedDeliversToHealthyRecipients |

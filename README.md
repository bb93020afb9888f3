# Presence registry

A Dafny model of the in-memory presence registry behind a small Express
server (`api/server.js`). Clients send a ping carrying a `userId` and an
optional `platform`; the server keeps, per identifier, the time of the last
ping and the platform it named. A query returns the clients whose last ping
is strictly newer than 30 seconds before the query, their count, and the total
number of identifiers ever seen.

The model lives in one module, `Presence` (`presence.dfy`):

- `Registry` is a class whose field `users: map<string, Record>` is the
  server's shared `users` object. `Ping` mutates it; `ListOnline` has no
  `modifies` clause, so Dafny itself guarantees that the query leaves the
  registry unchanged.
- `PingStep` is the pure specification of one ping. `Upsert` is the map
  update it performs. `OnlineIds` and `ListsOnline` specify what a query must
  return.
- `Replay` applies a sequence of pings one after another. The server runs on a
  single-threaded event loop, so this sequential interleaving is all there is
  to concurrent requests.
- Time is an integer number of milliseconds, passed in by the caller as `now`
  in place of `new Date()`.
- `userId` and `platform` are `Option<string>`. A field is "given" when it is
  present and not `""`. This matches JavaScript's truthiness for strings, as
  used by `!userId` and `platform || 'unknown'`.
- The HTTP reply of a ping is the `PingResult` datatype. It carries status
  200 or 400 and the two fixed messages.

The code hard-codes the window as `30 * 1000` ms; the model has no window
parameter either.

## Model

| member | source | states |
|---|---|---|
| Presence.PlatformOrDefault | api/server.js:42 | the stored platform is never empty; it is the supplied one when given (present and non-empty), otherwise "unknown" |
| Presence.PingResult.Status | api/server.js:35-46 | a rejected ping is reported with status 400, an accepted one with 200 |
| Presence.PingResult.Message | api/server.js:36 | a rejected ping is answered "Error: userId is required.", an accepted one (api/server.js:46) "Ping successful." |
| Presence.Upsert | api/server.js:40-43 | the key set becomes the old keys plus `id`; `id` maps to the new record; every other key keeps its record; the size is unchanged for a known id and grows by one for a new id |
| Presence.PingStep | api/server.js:33-43 | the result is InvalidArgument exactly when `userId` is missing or empty, and then the map is unchanged; otherwise `userId` maps to `{now, platform or "unknown"}`, other keys keep their records and no key is removed |
| Presence.Registry.Ping | api/server.js:32-47 | the new registry and the result are those of `PingStep` on the old registry: unchanged with InvalidArgument for a missing id, else the upsert with PingOk |
| Presence.Registry.ListOnline | api/server.js:57-78 | the answer lists each online client once, with its stored platform and lastActive, and no other client; `onlineCount` is the list's length and the number of online ids; `totalUsers` is the number of keys; `onlineCount <= totalUsers`; the registry is not modified |
| Presence.Registry.constructor | api/server.js:24 | the registry starts empty |
| Presence.EntryFor | api/server.js:64-68 | an answer entry carries the id and that id's stored platform and lastActive |
| Presence.OnlineAtMostTotal | api/server.js:74-76 | the number of online clients never exceeds the number of known clients |
| Presence.OnlineCountIsLength | api/server.js:74-76 | any list meeting the query specification has exactly one entry per online client, so its length equals the online count and is at most the total |
| Presence.ListedIffRecent | api/server.js:60-63 | a known client is listed if and only if its lastActive is strictly greater than the cutoff `now - 30000` |
| Presence.WindowBoundary | api/server.js:60-63 | a client last seen at `now - 30000` is not listed; one last seen at `now - 29999` is listed with its stored data |
| Presence.PingTotalUsers | api/server.js:40 | a ping grows the key count by one exactly when its id is given and new; otherwise the count is unchanged |
| Presence.PingThenListed | api/server.js:40-43 | after a valid ping at `t`, a query at any `q` with `t <= q < t + 30000` lists that id exactly once, with the pinged platform (or "unknown") and lastActive `t` |
| Presence.PingNeverAgesRecords | api/server.js:40-41 | when no record is later than `now`, a ping keeps every existing key and moves no record's lastActive backward |
| Presence.IdsSpan | api/server.js:62-68 | an id is among the listed ids exactly when some entry of the list carries it |
| Presence.DistinctCard | api/server.js:74 | a list with no repeated id has as many entries as distinct ids |
| Presence.ReplayKeys | api/server.js:40 | after any sequence of pings, the keys are the initial keys plus the ids of the accepted pings; no key is ever removed |
| Presence.DistinctPingsTotal | api/server.js:40-43 | N valid pings for N distinct new ids grow the total by exactly N |
| Presence.AcceptedIdsSpan | api/server.js:35-40 | an id is accepted in a run exactly when some request of the run is a valid ping for it |
| Presence.ReplayUntouched | api/server.js:40 | a run with no valid ping for an id leaves that id's record, or its absence, unchanged |
| Presence.ReplayLast | api/server.js:40-43 | after a run, an id holds the time and platform (or "unknown") of its last valid ping |
| Presence.LastPingExists | api/server.js:40 | every accepted id has a last valid ping in the run |
| Presence.ReplayAllOnline | api/server.js:40-43 | after a run from an empty registry whose pings are all newer than the cutoff of `q`, a query at `q` lists exactly the accepted ids |
| Presence.DistinctPingsAllListed | api/server.js:40-76 | N valid pings for N distinct ids, all within the window, give a list of N entries naming every one of them, and N known clients |
| Presence.AliceAndBob | api/server.js:32-78 | pinging "alice" on "web" and "bob" with no platform, then querying one second later, lists exactly two entries, alice/web and bob/unknown, and the registry holds two clients |

## Left out

- Express setup, routing, `cors()`, JSON body parsing and `app.listen` (api/server.js:4-15, 81-83): framework and I/O plumbing.
- The `console.log` calls (api/server.js:45, 72): logging only.
- The wall clock `new Date()`: replaced by the integer parameter `now`. Nothing forces successive calls to pass non-decreasing times; `PingNeverAgesRecords` assumes it.
- `toISOString()` of `lastActive` (api/server.js:67): entries carry the integer millisecond time itself.
- JSON response encoding: the ping result is a datatype with its status and message; the query result is the `OnlineReport` datatype.
- The order of the returned list, which follows JavaScript's property enumeration order: the loop picks the next key arbitrarily, and the contract leaves the order unspecified.
- Non-string request fields, such as a numeric `userId` or `platform` and their truthiness: the model takes optional strings only.
- PingStep, Registry.Ping and Registry.ListOnline treat the identifier `"__proto__"` as an ordinary key. In the source, `users["__proto__"] = {…}` (api/server.js:40) runs the inherited `__proto__` setter: it replaces the prototype of `users` and adds no key, so `totalUsers` does not grow. Every later `for…in` (api/server.js:62) then also visits the inherited `lastActive` and `platform`; reading `.lastActive.getTime()` of those (api/server.js:63) throws, so every later query fails with status 500 while the ids `lastActive` and `platform` are not both stored as own keys (an own key shadows the inherited name, which `for…in` then skips). The model stores the key, counts it, and its queries never fail. Other names of `Object.prototype` members (`constructor`, `toString`, …) become own keys in the source too, and they are ordinary keys in the model as well.
- PingTotalUsers, PingThenListed, ReplayKeys, ReplayLast, DistinctPingsTotal, ReplayAllOnline and DistinctPingsAllListed hold of the source only for runs that never ping `"__proto__"`, for the reason above.
- Concurrency: Node runs each handler to completion on one thread, so requests are modelled as a sequence (`Replay`).
- Line 1 of api/server.js reads `/ server.js`, which JavaScript parses as an unterminated regular-expression literal, so the file as written does not load. The model takes the handlers as if that line were the comment `// server.js`.
